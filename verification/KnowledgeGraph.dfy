/**
The bitemporal knowledge graph: two tables whose rows carry validity intervals,
closed but never deleted.
*/
module KnowledgeGraph {
  import opened Wrappers

  datatype Entity = Entity(
    id: string, name: string, kind: string, firstSeenAt: int, validFrom: int, validTo: Option<int>)

  datatype Relation = Relation(
    id: string, source: string, target: string, kind: string, observedAt: int,
    memory: string, validFrom: int, validTo: Option<int>)

  datatype Graph = Graph(entities: seq<Entity>, relations: seq<Relation>)

  datatype Error = IntegrityError

  predicate Touches(r: Relation, id: string) {
    r.source == id || r.target == id
  }

  predicate HasId(entities: seq<Entity>, id: string) {
    exists i | 0 <= i < |entities| :: entities[i].id == id
  }

  predicate HasRelationId(relations: seq<Relation>, id: string) {
    exists i | 0 <= i < |relations| :: relations[i].id == id
  }

  function Or(given: Option<int>, now: int): int {
    if given.Some? then given.value else now
  }

  // ---- what each operation does to the graph -----------------------------------------------

  /** The id of the entity that is active under a name. */
  function ActiveId(entities: seq<Entity>, name: string): Option<string> {
    if entities == [] then None
    else if entities[0].name == name && entities[0].validTo.None? then Some(entities[0].id)
    else ActiveId(entities[1..], name)
  }

  function Upserted(g: Graph, name: string, kind: string, validFrom: Option<int>, uuid: string, now: int)
    : (Graph, Result<string, Error>)
  {
    match ActiveId(g.entities, name)
    case Some(id) => (g, Ok(id))
    case None =>
      if HasId(g.entities, uuid) then (g, Err(IntegrityError))
      else (g.(entities := g.entities + [Entity(uuid, name, kind, now, Or(validFrom, now), None)]), Ok(uuid))
  }

  function Related(
    g: Graph, source: string, target: string, kind: string, memory: string,
    validFrom: Option<int>, uuid: string, now: int)
    : (Graph, Result<(), Error>)
  {
    if HasRelationId(g.relations, uuid) || !HasId(g.entities, source) || !HasId(g.entities, target) then
      (g, Err(IntegrityError))
    else
      var relation := Relation(uuid, source, target, kind, now, memory, Or(validFrom, now), None);
      (g.(relations := g.relations + [relation]), Ok(()))
  }

  function CloseEntity(e: Entity, id: string, now: int): Entity {
    if e.id == id && e.validTo.None? then e.(validTo := Some(now)) else e
  }

  function CloseRelation(r: Relation, id: string, now: int): Relation {
    if Touches(r, id) && r.validTo.None? then r.(validTo := Some(now)) else r
  }

  function ClosedEntities(entities: seq<Entity>, id: string, now: int): (closed: seq<Entity>)
    ensures |closed| == |entities|
    ensures forall i | 0 <= i < |entities| :: closed[i] == CloseEntity(entities[i], id, now)
  {
    if entities == [] then [] else [CloseEntity(entities[0], id, now)] + ClosedEntities(entities[1..], id, now)
  }

  function ClosedRelations(relations: seq<Relation>, id: string, now: int): (closed: seq<Relation>)
    ensures |closed| == |relations|
    ensures forall i | 0 <= i < |relations| :: closed[i] == CloseRelation(relations[i], id, now)
  {
    if relations == [] then [] else [CloseRelation(relations[0], id, now)] + ClosedRelations(relations[1..], id, now)
  }

  /** The entity and every relation that touches it are closed; rows closed before keep their time. */
  function Invalidated(g: Graph, id: string, now: int): Graph {
    Graph(ClosedEntities(g.entities, id, now), ClosedRelations(g.relations, id, now))
  }

  /** One invalidation after another, the k-th at times(k). */
  function InvalidatedAll(g: Graph, ids: seq<string>, times: nat -> int): Graph {
    if ids == [] then g
    else
      var n := |ids| - 1;
      Invalidated(InvalidatedAll(g, ids[..n], times), ids[n], times(n))
  }

  predicate IsActiveFor(r: Relation, memory: string) {
    r.memory == memory && r.validTo.None?
  }

  predicate IsEndpoint(g: Graph, memory: string, id: string) {
    exists i | 0 <= i < |g.relations| :: IsActiveFor(g.relations[i], memory) && Touches(g.relations[i], id)
  }

  predicate NoDuplicates<T(==)>(s: seq<T>) {
    forall i, j | 0 <= i < j < |s| :: s[i] != s[j]
  }

  /** An active entity joined to an active relation of the memory. */
  predicate IsLinked(g: Graph, memory: string, e: Entity) {
    e.validTo.None? && IsEndpoint(g, memory, e.id)
  }

  predicate UniqueIds(entities: seq<Entity>) {
    forall i, j | 0 <= i < j < |entities| :: entities[i].id != entities[j].id
  }

  predicate UniqueRelationIds(relations: seq<Relation>) {
    forall i, j | 0 <= i < j < |relations| :: relations[i].id != relations[j].id
  }

  // ---- the class -----------------------------------------------------------------------------

  class KnowledgeGraph {
    var entities: seq<Entity>
    var relations: seq<Relation>

    function Value(): Graph
      reads this
    {
      Graph(entities, relations)
    }

    constructor ()
      ensures Value() == Graph([], [])
    {
      entities, relations := [], [];
    }

    /** SELECT id … WHERE name = ? AND valid_to IS NULL, first row. */
    method SelectActive(name: string) returns (id: Option<string>)
      ensures id == ActiveId(entities, name)
    {
      var i := 0;
      while i < |entities|
        invariant i <= |entities| && ActiveId(entities, name) == ActiveId(entities[i..], name)
      {
        if entities[i].name == name && entities[i].validTo.None? { return Some(entities[i].id); }
        i := i + 1;
      }
      return None;
    }

    method UpsertEntity(name: string, kind: string, validFrom: Option<int>, uuid: string, now: int)
      returns (r: Result<string, Error>)
      modifies this
      ensures (Value(), r) == Upserted(old(Value()), name, kind, validFrom, uuid, now)
      // the first active row of that name is the answer, and nothing is written
      ensures forall i | 0 <= i < |old(entities)| && old(entities)[i].name == name && old(entities)[i].validTo.None?
                && (forall j | 0 <= j < i && old(entities)[j].name == name :: old(entities)[j].validTo.Some?) ::
                r == Ok(old(entities)[i].id) && Value() == old(Value())
      // without one there is a new row, unless its id is taken
      ensures (forall i | 0 <= i < |old(entities)| && old(entities)[i].name == name ::
              old(entities)[i].validTo.Some?) ==>
                if exists i :: 0 <= i < |old(entities)| && old(entities)[i].id == uuid then
                  r == Err(IntegrityError) && Value() == old(Value())
                else
                  && r == Ok(uuid) && relations == old(relations)
                  && |entities| == |old(entities)| + 1 && entities[..|old(entities)|] == old(entities)
                  && var row := entities[|old(entities)|];
                     && row.id == uuid && row.name == name && row.kind == kind && row.firstSeenAt == now
                     && row.validFrom == (if validFrom.Some? then validFrom.value else now) && row.validTo.None?
    {
      NoActiveId(entities, name);
      if ActiveId(entities, name).Some? { FirstActive(entities, name); }
      var existing := SelectActive(name);
      if existing.Some? { return Ok(existing.value); }
      if HasId(entities, uuid) { return Err(IntegrityError); }
      entities := entities + [Entity(uuid, name, kind, now, Or(validFrom, now), None)];
      return Ok(uuid);
    }

    method AddRelation(
      source: string, target: string, kind: string, memory: string, validFrom: Option<int>, uuid: string, now: int)
      returns (r: Result<(), Error>)
      modifies this
      ensures (Value(), r) == Related(old(Value()), source, target, kind, memory, validFrom, uuid, now)
      // the id is new and both endpoints have a row
      ensures r.Ok? <==>
                && (forall i | 0 <= i < |old(relations)| :: old(relations)[i].id != uuid)
                && (exists i :: 0 <= i < |old(entities)| && old(entities)[i].id == source)
                && (exists i :: 0 <= i < |old(entities)| && old(entities)[i].id == target)
      // then there is one more row, directed and labelled as asked, and open
      ensures r.Ok? ==>
                && entities == old(entities)
                && |relations| == |old(relations)| + 1 && relations[..|old(relations)|] == old(relations)
                && var row := relations[|old(relations)|];
                   && row.id == uuid && row.source == source && row.target == target && row.kind == kind
                   && row.memory == memory && row.observedAt == now
                   && row.validFrom == (if validFrom.Some? then validFrom.value else now) && row.validTo.None?
      ensures r.Err? ==> Value() == old(Value())
    {
      if HasRelationId(relations, uuid) { return Err(IntegrityError); }
      if !HasId(entities, source) || !HasId(entities, target) { return Err(IntegrityError); }
      relations := relations + [Relation(uuid, source, target, kind, now, memory, Or(validFrom, now), None)];
      return Ok(());
    }

    /** The two UPDATE statements, row by row. */
    method Invalidate(id: string, now: int)
      modifies this
      ensures Value() == Invalidated(old(Value()), id, now)
      // exactly the open rows of the entity and of its relations get this end
      ensures |entities| == |old(entities)| && |relations| == |old(relations)|
      ensures forall i | 0 <= i < |entities| ::
                var was := old(entities)[i];
                entities[i] == if was.id == id && was.validTo.None? then was.(validTo := Some(now)) else was
      ensures forall i | 0 <= i < |relations| ::
                var was := old(relations)[i];
                relations[i] == if (was.source == id || was.target == id) && was.validTo.None?
                                then was.(validTo := Some(now)) else was
    {
      var i := 0;
      while i < |entities|
        invariant i <= |entities| == |old(entities)| && relations == old(relations)
        invariant forall j | 0 <= j < i :: entities[j] == CloseEntity(old(entities)[j], id, now)
        invariant forall j | i <= j < |entities| :: entities[j] == old(entities)[j]
      {
        if entities[i].id == id && entities[i].validTo.None? {
          entities := entities[i := entities[i].(validTo := Some(now))];
        }
        i := i + 1;
      }
      assert entities == ClosedEntities(old(entities), id, now);
      i := 0;
      while i < |relations|
        invariant i <= |relations| == |old(relations)| && entities == ClosedEntities(old(entities), id, now)
        invariant forall j | 0 <= j < i :: relations[j] == CloseRelation(old(relations)[j], id, now)
        invariant forall j | i <= j < |relations| :: relations[j] == old(relations)[j]
      {
        if Touches(relations[i], id) && relations[i].validTo.None? {
          relations := relations[i := relations[i].(validTo := Some(now))];
        }
        i := i + 1;
      }
      assert relations == ClosedRelations(old(relations), id, now);
    }

    /** SELECT DISTINCT source_id, target_id … of a memory's active relations. */
    method SelectPairs(memory: string) returns (rows: seq<(string, string)>)
      ensures NoDuplicates(rows)
      ensures forall p :: p in rows <==>
                exists i | 0 <= i < |relations| ::
                  IsActiveFor(relations[i], memory) && p == (relations[i].source, relations[i].target)
    {
      rows := [];
      var i := 0;
      while i < |relations|
        invariant i <= |relations| && NoDuplicates(rows)
        invariant forall p :: p in rows <==>
                  exists j | 0 <= j < i ::
                    IsActiveFor(relations[j], memory) && p == (relations[j].source, relations[j].target)
      {
        ghost var before := rows;
        var p := (relations[i].source, relations[i].target);
        if IsActiveFor(relations[i], memory) && p !in rows {
          rows := rows + [p];
        }
        assert forall q :: q in rows <==> q in before || (IsActiveFor(relations[i], memory) && q == p);
        i := i + 1;
      }
    }

    /** The endpoints of the memory's active relations, each once; then each is invalidated in turn. */
    method InvalidateByMemory(memory: string, times: nat -> int) returns (ids: seq<string>)
      modifies this
      ensures NoDuplicates(ids)
      ensures forall id :: id in ids <==> IsEndpoint(old(Value()), memory, id)
      ensures Value() == InvalidatedAll(old(Value()), ids, times)
      // the ids are the two ends of the memory's open relations
      ensures forall id :: id in ids <==>
                exists i | 0 <= i < |old(relations)| ::
                  && old(relations)[i].memory == memory && old(relations)[i].validTo.None?
                  && (old(relations)[i].source == id || old(relations)[i].target == id)
      // an open entity among them ends when its turn comes, and no other entity changes
      ensures |entities| == |old(entities)| && |relations| == |old(relations)|
      ensures forall i, k | 0 <= i < |entities| && 0 <= k < |ids|
                && old(entities)[i].validTo.None? && old(entities)[i].id == ids[k] ::
                entities[i] == old(entities)[i].(validTo := Some(times(k)))
      ensures forall i | 0 <= i < |entities| && (old(entities)[i].validTo.Some? || old(entities)[i].id !in ids) ::
                entities[i] == old(entities)[i]
      // an open relation ends with the first of its ends, and no other relation changes
      ensures forall i, k | 0 <= i < |relations| && 0 <= k < |ids| && old(relations)[i].validTo.None?
                && (old(relations)[i].source == ids[k] || old(relations)[i].target == ids[k])
                && old(relations)[i].source !in ids[..k] && old(relations)[i].target !in ids[..k] ::
                relations[i] == old(relations)[i].(validTo := Some(times(k)))
      ensures forall i | 0 <= i < |relations| && (old(relations)[i].validTo.Some?
                || (old(relations)[i].source !in ids && old(relations)[i].target !in ids)) ::
                relations[i] == old(relations)[i]
    {
      var rows := SelectPairs(memory);
      ids := Endpoints(rows);
      ghost var g := Value();
      forall id
        ensures id in ids <==> IsEndpoint(g, memory, id)
      {
        PairsGiveEndpoints(g, memory, rows, id);
      }
      var k := 0;
      while k < |ids|
        invariant k <= |ids| && Value() == InvalidatedAll(g, ids[..k], times)
      {
        assert ids[..k + 1][..k] == ids[..k];
        Invalidate(ids[k], times(k));
        k := k + 1;
      }
      assert ids[..k] == ids;
      CascadeOnEntities(g, ids, times);
      CascadeOnRelations(g, ids, times);
    }

    /** Active entities linked to the memory; the primary key makes DISTINCT rows the table's rows. */
    method GetEntities(memory: string) returns (found: seq<Entity>)
      ensures forall e :: e in found <==>
                && e in entities && e.validTo.None?
                && exists i | 0 <= i < |relations| ::
                     && relations[i].memory == memory && relations[i].validTo.None?
                     && (relations[i].source == e.id || relations[i].target == e.id)
      ensures forall e :: e in found <==> e in entities && IsLinked(Value(), memory, e)
      ensures UniqueIds(entities) ==> NoDuplicates(found)
    {
      found := [];
      var i := 0;
      while i < |entities|
        invariant i <= |entities|
        invariant forall e :: e in found <==> e in entities[..i] && IsLinked(Value(), memory, e)
        invariant UniqueIds(entities) ==> NoDuplicates(found)
      {
        assert UniqueIds(entities) ==> forall j | 0 <= j < i :: entities[j].id != entities[i].id;
        assert UniqueIds(entities) ==> entities[i] !in entities[..i];
        if entities[i].validTo.None? && IsEndpoint(Value(), memory, entities[i].id) {
          found := found + [entities[i]];
        }
        assert entities[..i + 1] == entities[..i] + [entities[i]];
        i := i + 1;
      }
      assert entities[..i] == entities;
    }

    method GetRelations(id: string) returns (found: seq<Relation>)
      ensures forall r :: r in found <==> r in relations && (r.source == id || r.target == id) && r.validTo.None?
      ensures UniqueRelationIds(relations) ==> NoDuplicates(found)
    {
      found := [];
      var i := 0;
      while i < |relations|
        invariant i <= |relations|
        invariant forall r :: r in found <==> r in relations[..i] && Touches(r, id) && r.validTo.None?
        invariant UniqueRelationIds(relations) ==> NoDuplicates(found)
      {
        if Touches(relations[i], id) && relations[i].validTo.None? {
          found := found + [relations[i]];
        }
        assert relations[..i + 1] == relations[..i] + [relations[i]];
        i := i + 1;
      }
      assert relations[..i] == relations;
    }
  }

  /** The list the cascade builds: each endpoint once, in order of first appearance. */
  method Endpoints(rows: seq<(string, string)>) returns (ids: seq<string>)
    ensures NoDuplicates(ids)
    ensures forall id :: id in ids <==> exists i | 0 <= i < |rows| :: rows[i].0 == id || rows[i].1 == id
  {
    ids := [];
    var i := 0;
    while i < |rows|
      invariant i <= |rows| && NoDuplicates(ids)
      invariant forall id :: id in ids <==> exists j | 0 <= j < i :: rows[j].0 == id || rows[j].1 == id
    {
      ghost var before := ids;
      if rows[i].0 !in ids { ids := ids + [rows[i].0]; }
      if rows[i].1 !in ids { ids := ids + [rows[i].1]; }
      assert forall id :: id in ids <==> id in before || rows[i].0 == id || rows[i].1 == id;
      i := i + 1;
    }
  }

  lemma PairsGiveEndpoints(g: Graph, memory: string, rows: seq<(string, string)>, id: string)
    requires forall p :: p in rows <==>
               exists i | 0 <= i < |g.relations| ::
                 IsActiveFor(g.relations[i], memory) && p == (g.relations[i].source, g.relations[i].target)
    ensures (exists i | 0 <= i < |rows| :: rows[i].0 == id || rows[i].1 == id) <==> IsEndpoint(g, memory, id)
  {
    if i :| 0 <= i < |rows| && (rows[i].0 == id || rows[i].1 == id) {
      var p := rows[i];
      assert p in rows;
      var j :| 0 <= j < |g.relations| && IsActiveFor(g.relations[j], memory)
          && p == (g.relations[j].source, g.relations[j].target);
      assert Touches(g.relations[j], id);
    }
    if IsEndpoint(g, memory, id) {
      var j :| 0 <= j < |g.relations| && IsActiveFor(g.relations[j], memory) && Touches(g.relations[j], id);
      var p := (g.relations[j].source, g.relations[j].target);
      assert p in rows;
      var i :| 0 <= i < |rows| && rows[i] == p;
    }
  }

  // ---- the cascade, row by row -----------------------------------------------------------------

  /** An entity the cascade does not name, or closed before, is untouched. */
  lemma {:induction false} CascadeSparesEntity(g: Graph, ids: seq<string>, times: nat -> int, i: nat)
    requires i < |g.entities| && (g.entities[i].validTo.Some? || g.entities[i].id !in ids)
    ensures i < |InvalidatedAll(g, ids, times).entities| && InvalidatedAll(g, ids, times).entities[i] == g.entities[i]
    decreases |ids|
  {
    if ids != [] {
      assert ids[|ids| - 1] in ids;
      CascadeSparesEntity(g, ids[..|ids| - 1], times, i);
    }
  }

  /** An active entity is closed when the cascade first names it, at index k, and stays so. */
  lemma {:induction false} CascadeClosesEntity(g: Graph, ids: seq<string>, times: nat -> int, i: nat, k: nat)
    requires i < |g.entities| && k < |ids| && g.entities[i].validTo.None?
    requires g.entities[i].id == ids[k] && g.entities[i].id !in ids[..k]
    ensures i < |InvalidatedAll(g, ids, times).entities|
    ensures InvalidatedAll(g, ids, times).entities[i] == g.entities[i].(validTo := Some(times(k)))
    decreases |ids|
  {
    var n := |ids| - 1;
    if k == n {
      CascadeSparesEntity(g, ids[..n], times, i);
    } else {
      assert ids[..n][..k] == ids[..k];
      CascadeClosesEntity(g, ids[..n], times, i, k);
    }
  }

  lemma CascadeOnEntities(g: Graph, ids: seq<string>, times: nat -> int)
    requires NoDuplicates(ids)
    ensures var h := InvalidatedAll(g, ids, times);
            && |h.entities| == |g.entities|
            && (forall i, k | 0 <= i < |g.entities| && 0 <= k < |ids|
                  && g.entities[i].validTo.None? && g.entities[i].id == ids[k] ::
                  h.entities[i] == g.entities[i].(validTo := Some(times(k))))
            && (forall i | 0 <= i < |g.entities| && (g.entities[i].validTo.Some? || g.entities[i].id !in ids) ::
                  h.entities[i] == g.entities[i])
  {
    hide InvalidatedAll;
    CascadeKeepsSizes(g, ids, times);
    forall i, k | 0 <= i < |g.entities| && 0 <= k < |ids| && g.entities[i].validTo.None? && g.entities[i].id == ids[k]
      ensures InvalidatedAll(g, ids, times).entities[i] == g.entities[i].(validTo := Some(times(k)))
    {
      CascadeClosesEntity(g, ids, times, i, k);
    }
    forall i | 0 <= i < |g.entities| && (g.entities[i].validTo.Some? || g.entities[i].id !in ids)
      ensures InvalidatedAll(g, ids, times).entities[i] == g.entities[i]
    {
      CascadeSparesEntity(g, ids, times, i);
    }
  }

  lemma {:induction false} CascadeSparesRelation(g: Graph, ids: seq<string>, times: nat -> int, i: nat)
    requires i < |g.relations|
    requires g.relations[i].validTo.Some? || (g.relations[i].source !in ids && g.relations[i].target !in ids)
    ensures i < |InvalidatedAll(g, ids, times).relations|
            && InvalidatedAll(g, ids, times).relations[i] == g.relations[i]
    decreases |ids|
  {
    if ids != [] {
      assert ids[|ids| - 1] in ids;
      CascadeSparesRelation(g, ids[..|ids| - 1], times, i);
    }
  }

  /** An active relation is closed at the first id it touches. */
  lemma {:induction false} CascadeClosesRelation(g: Graph, ids: seq<string>, times: nat -> int, i: nat, k: nat)
    requires i < |g.relations| && k < |ids| && g.relations[i].validTo.None?
    requires Touches(g.relations[i], ids[k]) && g.relations[i].source !in ids[..k] && g.relations[i].target !in ids[..k]
    ensures i < |InvalidatedAll(g, ids, times).relations|
    ensures InvalidatedAll(g, ids, times).relations[i] == g.relations[i].(validTo := Some(times(k)))
    decreases |ids|
  {
    var n := |ids| - 1;
    if k == n {
      CascadeSparesRelation(g, ids[..n], times, i);
    } else {
      assert ids[..n][..k] == ids[..k];
      CascadeClosesRelation(g, ids[..n], times, i, k);
    }
  }

  lemma {:induction false} CascadeKeepsSizes(g: Graph, ids: seq<string>, times: nat -> int)
    ensures |InvalidatedAll(g, ids, times).entities| == |g.entities|
    ensures |InvalidatedAll(g, ids, times).relations| == |g.relations|
    decreases |ids|
  {
    if ids != [] { CascadeKeepsSizes(g, ids[..|ids| - 1], times); }
  }

  lemma CascadeOnRelations(g: Graph, ids: seq<string>, times: nat -> int)
    ensures var h := InvalidatedAll(g, ids, times);
            && |h.relations| == |g.relations|
            && (forall i, k | 0 <= i < |g.relations| && 0 <= k < |ids| && g.relations[i].validTo.None?
                  && (g.relations[i].source == ids[k] || g.relations[i].target == ids[k])
                  && g.relations[i].source !in ids[..k] && g.relations[i].target !in ids[..k] ::
                  h.relations[i] == g.relations[i].(validTo := Some(times(k))))
            && (forall i | 0 <= i < |g.relations| && (g.relations[i].validTo.Some?
                  || (g.relations[i].source !in ids && g.relations[i].target !in ids)) ::
                  h.relations[i] == g.relations[i])
  {
    hide InvalidatedAll;
    CascadeKeepsSizes(g, ids, times);
    forall i, k | 0 <= i < |g.relations| && 0 <= k < |ids| && g.relations[i].validTo.None?
      && (g.relations[i].source == ids[k] || g.relations[i].target == ids[k])
      && g.relations[i].source !in ids[..k] && g.relations[i].target !in ids[..k]
      ensures InvalidatedAll(g, ids, times).relations[i] == g.relations[i].(validTo := Some(times(k)))
    {
      CascadeClosesRelation(g, ids, times, i, k);
    }
    forall i | 0 <= i < |g.relations| && (g.relations[i].validTo.Some?
      || (g.relations[i].source !in ids && g.relations[i].target !in ids))
      ensures InvalidatedAll(g, ids, times).relations[i] == g.relations[i]
    {
      CascadeSparesRelation(g, ids, times, i);
    }
  }

  lemma FirstAt(ids: seq<string>, id: string) returns (k: nat)
    requires id in ids
    ensures k < |ids| && ids[k] == id && id !in ids[..k]
  {
    k := 0;
    while ids[k] != id
      invariant k < |ids| && id !in ids[..k] && id in ids[k..]
      decreases |ids| - k
    {
      k := k + 1;
    }
  }

  lemma FirstTouching(ids: seq<string>, r: Relation) returns (k: nat)
    requires r.source in ids || r.target in ids
    ensures k < |ids| && Touches(r, ids[k]) && r.source !in ids[..k] && r.target !in ids[..k]
  {
    k := 0;
    while !Touches(r, ids[k])
      invariant k < |ids| && r.source !in ids[..k] && r.target !in ids[..k]
      invariant r.source in ids[k..] || r.target in ids[k..]
      decreases |ids| - k
    {
      k := k + 1;
    }
  }

  lemma EntityAfterCascade(g: Graph, ids: seq<string>, times: nat -> int, i: nat)
    requires i < |g.entities|
    ensures var es := InvalidatedAll(g, ids, times).entities;
            && i < |es|
            && (es[i] == g.entities[i] <==> g.entities[i].validTo.Some? || g.entities[i].id !in ids)
            && es[i].id == g.entities[i].id
            && (es[i].id in ids ==> es[i].validTo.Some?)
  {
    hide InvalidatedAll;
    if g.entities[i].validTo.None? && g.entities[i].id in ids {
      var k := FirstAt(ids, g.entities[i].id);
      CascadeClosesEntity(g, ids, times, i, k);
    } else {
      CascadeSparesEntity(g, ids, times, i);
    }
  }

  lemma RelationAfterCascade(g: Graph, ids: seq<string>, times: nat -> int, i: nat)
    requires i < |g.relations|
    ensures var r := g.relations[i];
            var rs := InvalidatedAll(g, ids, times).relations;
            && i < |rs|
            && (rs[i] == r <==> r.validTo.Some? || (r.source !in ids && r.target !in ids))
            && rs[i].(validTo := None) == r.(validTo := None)
            && (rs[i].source in ids || rs[i].target in ids ==> rs[i].validTo.Some?)
            && (rs[i].validTo.None? ==> rs[i] == r)
  {
    hide InvalidatedAll;
    var r := g.relations[i];
    if r.validTo.None? && (r.source in ids || r.target in ids) {
      var k := FirstTouching(ids, r);
      CascadeClosesRelation(g, ids, times, i, k);
    } else {
      CascadeSparesRelation(g, ids, times, i);
    }
  }

  /** What is closed after a cascade: everything in reach of the ids. */
  lemma CascadeReachesAll(g: Graph, ids: seq<string>, times: nat -> int)
    ensures var h := InvalidatedAll(g, ids, times);
            && |h.entities| == |g.entities| && |h.relations| == |g.relations|
            && (forall i | 0 <= i < |h.entities| :: h.entities[i].id in ids ==> h.entities[i].validTo.Some?)
            && (forall i | 0 <= i < |h.relations| ::
                  h.relations[i].source in ids || h.relations[i].target in ids ==> h.relations[i].validTo.Some?)
            && (forall i | 0 <= i < |h.relations| :: h.relations[i].validTo.None? ==> g.relations[i] == h.relations[i])
  {
    hide InvalidatedAll;
    CascadeKeepsSizes(g, ids, times);
    var h := InvalidatedAll(g, ids, times);
    forall i: nat | i < |g.entities|
      ensures h.entities[i].id in ids ==> h.entities[i].validTo.Some?
    {
      EntityAfterCascade(g, ids, times, i);
    }
    forall i: nat | i < |g.relations|
      ensures h.relations[i].source in ids || h.relations[i].target in ids ==> h.relations[i].validTo.Some?
      ensures h.relations[i].validTo.None? ==> g.relations[i] == h.relations[i]
    {
      RelationAfterCascade(g, ids, times, i);
    }
  }

  /**
  After a memory is invalidated: no endpoint of its relations is active, no active
  relation touches one, the memory has no active relation left, and so
  `get_entities` finds nothing for it.
  */
  lemma MemoryIsGone(g: Graph, memory: string, ids: seq<string>, times: nat -> int)
    requires forall id :: id in ids <==> IsEndpoint(g, memory, id)
    ensures var h := InvalidatedAll(g, ids, times);
            && (forall e | e in h.entities && e.id in ids :: e.validTo.Some?)
            && (forall r | r in h.relations && (r.source in ids || r.target in ids) :: r.validTo.Some?)
            && (forall r | r in h.relations :: !IsActiveFor(r, memory))
            && (forall e | e in h.entities :: !IsLinked(h, memory, e))
  {
    CascadeReachesAll(g, ids, times);
    var h := InvalidatedAll(g, ids, times);
    forall i | 0 <= i < |h.relations|
      ensures !IsActiveFor(h.relations[i], memory)
    {
      if IsActiveFor(g.relations[i], memory) {
        assert Touches(g.relations[i], g.relations[i].source);
        assert IsEndpoint(g, memory, g.relations[i].source);
      }
    }
  }

  /** Rows out of reach, and rows closed before, are untouched. */
  lemma OtherRowsStay(g: Graph, ids: seq<string>, times: nat -> int)
    ensures var h := InvalidatedAll(g, ids, times);
            && |h.entities| == |g.entities| && |h.relations| == |g.relations|
            && (forall i | 0 <= i < |g.entities| ::
                  h.entities[i] == g.entities[i] <==> g.entities[i].validTo.Some? || g.entities[i].id !in ids)
            && (forall i | 0 <= i < |g.relations| ::
                  h.relations[i] == g.relations[i] <==>
                  g.relations[i].validTo.Some? || (g.relations[i].source !in ids && g.relations[i].target !in ids))
  {
    hide InvalidatedAll;
    CascadeKeepsSizes(g, ids, times);
    var h := InvalidatedAll(g, ids, times);
    forall i: nat | i < |g.entities|
      ensures h.entities[i] == g.entities[i] <==> g.entities[i].validTo.Some? || g.entities[i].id !in ids
    {
      EntityAfterCascade(g, ids, times, i);
    }
    forall i: nat | i < |g.relations|
      ensures h.relations[i] == g.relations[i] <==>
              g.relations[i].validTo.Some? || (g.relations[i].source !in ids && g.relations[i].target !in ids)
    {
      RelationAfterCascade(g, ids, times, i);
    }
  }

  // ---- every reachable state ------------------------------------------------------------------------

  datatype Op =
    | Upsert(name: string, kind: string, validFrom: Option<int>, uuid: string, now: int)
    | Relate(source: string, target: string, rkind: string, memory: string,
             rvalidFrom: Option<int>, ruuid: string, rnow: int)
    | Invalidate(id: string, inow: int)
    | InvalidateMemory(ids: seq<string>, times: nat -> int)  // ids as its query lists them

  function Step(g: Graph, op: Op): Graph {
    match op
    case Upsert(name, kind, validFrom, uuid, now) => Upserted(g, name, kind, validFrom, uuid, now).0
    case Relate(source, target, kind, memory, validFrom, uuid, now) =>
      Related(g, source, target, kind, memory, validFrom, uuid, now).0
    case Invalidate(id, now) => Invalidated(g, id, now)
    case InvalidateMemory(ids, times) => InvalidatedAll(g, ids, times)
  }

  function Run(g: Graph, ops: seq<Op>): Graph
    decreases ops
  {
    if ops == [] then g else Run(Step(g, ops[0]), ops[1..])
  }

  predicate OneActivePerName(entities: seq<Entity>) {
    forall i, j | 0 <= i < j < |entities| ::
      entities[i].validTo.None? && entities[j].validTo.None? ==> entities[i].name != entities[j].name
  }

  predicate EndpointsExist(g: Graph) {
    forall i | 0 <= i < |g.relations| ::
      HasId(g.entities, g.relations[i].source) && HasId(g.entities, g.relations[i].target)
  }

  predicate Sound(g: Graph) {
    UniqueIds(g.entities) && UniqueRelationIds(g.relations) && OneActivePerName(g.entities) && EndpointsExist(g)
  }

  /** A row may only be closed, once. */
  predicate EntityEvolves(e: Entity, e': Entity) {
    e' == e || (e.validTo.None? && e'.validTo.Some? && e'.(validTo := None) == e)
  }

  predicate RelationEvolves(r: Relation, r': Relation) {
    r' == r || (r.validTo.None? && r'.validTo.Some? && r'.(validTo := None) == r)
  }

  /** No row disappears or moves, and an end once set never changes. */
  predicate Evolves(g: Graph, h: Graph) {
    && |g.entities| <= |h.entities|
    && |g.relations| <= |h.relations|
    && (forall i | 0 <= i < |g.entities| :: EntityEvolves(g.entities[i], h.entities[i]))
    && (forall i | 0 <= i < |g.relations| :: RelationEvolves(g.relations[i], h.relations[i]))
  }

  lemma EvolvesIsTransitive(g: Graph, h: Graph, k: Graph)
    requires Evolves(g, h) && Evolves(h, k)
    ensures Evolves(g, k)
  {
    forall i | 0 <= i < |g.entities|
      ensures EntityEvolves(g.entities[i], k.entities[i])
    {
      assert EntityEvolves(g.entities[i], h.entities[i]) && EntityEvolves(h.entities[i], k.entities[i]);
    }
    forall i | 0 <= i < |g.relations|
      ensures RelationEvolves(g.relations[i], k.relations[i])
    {
      assert RelationEvolves(g.relations[i], h.relations[i]) && RelationEvolves(h.relations[i], k.relations[i]);
    }
  }

  lemma {:induction false} NoActiveId(entities: seq<Entity>, name: string)
    ensures ActiveId(entities, name).None? <==>
            forall i | 0 <= i < |entities| :: entities[i].name == name ==> entities[i].validTo.Some?
  {
    if entities != [] {
      NoActiveId(entities[1..], name);
      assert forall i | 1 <= i < |entities| :: entities[i] == entities[1..][i - 1];
    }
  }

  /** The lookup finds the first active row of the name. */
  lemma {:induction false} FirstActive(entities: seq<Entity>, name: string)
    ensures forall i | 0 <= i < |entities| && entities[i].name == name && entities[i].validTo.None?
              && (forall j | 0 <= j < i && entities[j].name == name :: entities[j].validTo.Some?) ::
              ActiveId(entities, name) == Some(entities[i].id)
  {
    if entities != [] && !(entities[0].name == name && entities[0].validTo.None?) {
      FirstActive(entities[1..], name);
      forall i | 0 <= i < |entities| && entities[i].name == name && entities[i].validTo.None?
        && (forall j | 0 <= j < i && entities[j].name == name :: entities[j].validTo.Some?)
        ensures ActiveId(entities, name) == Some(entities[i].id)
      {
        assert entities[1..][i - 1] == entities[i];
        assert forall j | 0 <= j < i - 1 :: entities[1..][j] == entities[j + 1];
      }
    }
  }

  lemma HasIdSurvives(entities: seq<Entity>, entities': seq<Entity>, id: string)
    requires |entities| <= |entities'| && forall i | 0 <= i < |entities| :: entities'[i].id == entities[i].id
    ensures HasId(entities, id) ==> HasId(entities', id)
  {
    if HasId(entities, id) {
      var i :| 0 <= i < |entities| && entities[i].id == id;
      assert entities'[i].id == id;
    }
  }

  lemma UpsertKeeps(g: Graph, name: string, kind: string, validFrom: Option<int>, uuid: string, now: int)
    requires Sound(g)
    ensures var h := Upserted(g, name, kind, validFrom, uuid, now).0; Sound(h) && Evolves(g, h)
  {
    var h := Upserted(g, name, kind, validFrom, uuid, now).0;
    NoActiveId(g.entities, name);
    forall i | 0 <= i < |g.relations|
      ensures HasId(h.entities, g.relations[i].source) && HasId(h.entities, g.relations[i].target)
    {
      HasIdSurvives(g.entities, h.entities, g.relations[i].source);
      HasIdSurvives(g.entities, h.entities, g.relations[i].target);
    }
  }

  lemma ClosingEntitiesKeeps(entities: seq<Entity>, id: string, now: int)
    requires UniqueIds(entities) && OneActivePerName(entities)
    ensures UniqueIds(ClosedEntities(entities, id, now)) && OneActivePerName(ClosedEntities(entities, id, now))
  {
  }

  lemma ClosingKeepsEndpoints(g: Graph, id: string, now: int)
    requires EndpointsExist(g)
    ensures EndpointsExist(Invalidated(g, id, now))
  {
    var h := Invalidated(g, id, now);
    forall i | 0 <= i < |h.relations|
      ensures HasId(h.entities, h.relations[i].source) && HasId(h.entities, h.relations[i].target)
    {
      HasIdSurvives(g.entities, h.entities, g.relations[i].source);
      HasIdSurvives(g.entities, h.entities, g.relations[i].target);
    }
  }

  lemma InvalidateKeeps(g: Graph, id: string, now: int)
    requires Sound(g)
    ensures Sound(Invalidated(g, id, now)) && Evolves(g, Invalidated(g, id, now))
  {
    hide UniqueIds, OneActivePerName, EndpointsExist;
    ClosingEntitiesKeeps(g.entities, id, now);
    ClosingKeepsEndpoints(g, id, now);
  }

  lemma {:induction false} InvalidateAllKeeps(g: Graph, ids: seq<string>, times: nat -> int)
    requires Sound(g)
    ensures Sound(InvalidatedAll(g, ids, times)) && Evolves(g, InvalidatedAll(g, ids, times))
    decreases |ids|
  {
    if ids != [] {
      var n := |ids| - 1;
      var h := InvalidatedAll(g, ids[..n], times);
      InvalidateAllKeeps(g, ids[..n], times);
      InvalidateKeeps(h, ids[n], times(n));
      EvolvesIsTransitive(g, h, Invalidated(h, ids[n], times(n)));
    }
  }

  lemma StepKeeps(g: Graph, op: Op)
    requires Sound(g)
    ensures Sound(Step(g, op)) && Evolves(g, Step(g, op))
  {
    match op
    case Upsert(name, kind, validFrom, uuid, now) => UpsertKeeps(g, name, kind, validFrom, uuid, now);
    case Relate(_, _, _, _, _, _, _) =>
    case Invalidate(id, now) => InvalidateKeeps(g, id, now);
    case InvalidateMemory(ids, times) => InvalidateAllKeeps(g, ids, times);
  }

  /**
  In every state any run reaches: at most one active entity per name, every
  relation's endpoints exist, and every row of an earlier state is still there,
  with its end unchanged if it had one.
  */
  lemma {:induction false} RunKeeps(g: Graph, ops: seq<Op>)
    requires Sound(g)
    ensures Sound(Run(g, ops)) && Evolves(g, Run(g, ops))
    decreases ops
  {
    if ops != [] {
      StepKeeps(g, ops[0]);
      RunKeeps(Step(g, ops[0]), ops[1..]);
      EvolvesIsTransitive(g, Step(g, ops[0]), Run(Step(g, ops[0]), ops[1..]));
    }
  }

  // ---- upsert is a lookup until the entity is closed ----------------------------------------------

  lemma {:induction false} ActiveIdOfAppended(entities: seq<Entity>, e: Entity, name: string)
    ensures ActiveId(entities + [e], name)
         == if ActiveId(entities, name).Some? then ActiveId(entities, name)
            else if e.name == name && e.validTo.None? then Some(e.id) else None
  {
    if entities != [] {
      ActiveIdOfAppended(entities[1..], e, name);
      assert (entities + [e])[1..] == entities[1..] + [e];
    } else {
      assert ([] + [e])[1..] == [];
    }
  }

  /** A second upsert of the name returns the first one's id and writes nothing, whatever else it is given. */
  lemma UpsertTwice(
    g: Graph, name: string, kind: string, validFrom: Option<int>, uuid: string, now: int,
    kind': string, validFrom': Option<int>, uuid': string, now': int)
    requires Upserted(g, name, kind, validFrom, uuid, now).1.Ok?
    ensures var (h, r) := Upserted(g, name, kind, validFrom, uuid, now);
            Upserted(h, name, kind', validFrom', uuid', now') == (h, r)
  {
    if ActiveId(g.entities, name).None? {
      ActiveIdOfAppended(g.entities, Entity(uuid, name, kind, now, Or(validFrom, now), None), name);
    }
  }

  /** Once the entity is invalidated, the next upsert adds a new version beside the closed one. */
  lemma {:induction false} NewVersionAfterInvalidate(
    g: Graph, id: string, name: string, kind: string, validFrom: Option<int>, uuid: string, now: int, now': int)
    requires Sound(g) && ActiveId(g.entities, name) == Some(id) && !HasId(g.entities, uuid)
    ensures var h := Invalidated(g, id, now);
            var version := Entity(uuid, name, kind, now', Or(validFrom, now'), None);
            Upserted(h, name, kind, validFrom, uuid, now') == (h.(entities := h.entities + [version]), Ok(uuid))
  {
    var h := Invalidated(g, id, now);
    var i := ActiveIdAt(g.entities, name);
    forall j | 0 <= j < |h.entities|
      ensures h.entities[j].name == name ==> h.entities[j].validTo.Some?
    {
      if j < i { assert g.entities[j].name == name ==> g.entities[j].validTo.Some?; }
      if j > i { assert g.entities[j].name == name ==> g.entities[j].validTo.Some?; }
    }
    NoActiveId(h.entities, name);
    HasIdSurvives(h.entities, g.entities, uuid);
  }

  lemma {:induction false} ActiveIdAt(entities: seq<Entity>, name: string) returns (i: nat)
    requires ActiveId(entities, name).Some?
    ensures i < |entities| && entities[i].name == name && entities[i].validTo.None?
    ensures ActiveId(entities, name) == Some(entities[i].id)
  {
    if entities[0].name == name && entities[0].validTo.None? {
      i := 0;
    } else {
      var k := ActiveIdAt(entities[1..], name);
      i := k + 1;
    }
  }

  // ---- relations that outlive their entities -------------------------------------------------------

  predicate IsActiveId(entities: seq<Entity>, id: string) {
    exists i | 0 <= i < |entities| :: entities[i].id == id && entities[i].validTo.None?
  }

  /** Every active relation joins active entities. */
  predicate Tight(g: Graph) {
    forall i | 0 <= i < |g.relations| && g.relations[i].validTo.None? ::
      IsActiveId(g.entities, g.relations[i].source) && IsActiveId(g.entities, g.relations[i].target)
  }

  lemma ActiveIdSurvives(entities: seq<Entity>, id: string, closed: string, now: int)
    requires id != closed
    ensures IsActiveId(entities, id) ==> IsActiveId(ClosedEntities(entities, closed, now), id)
  {
    if IsActiveId(entities, id) {
      var i :| 0 <= i < |entities| && entities[i].id == id && entities[i].validTo.None?;
      assert ClosedEntities(entities, closed, now)[i] == entities[i];
    }
  }

  /** Invalidating closes what it would leave dangling. */
  lemma InvalidateKeepsTight(g: Graph, id: string, now: int)
    requires Tight(g)
    ensures Tight(Invalidated(g, id, now))
  {
    var h := Invalidated(g, id, now);
    forall i | 0 <= i < |h.relations| && h.relations[i].validTo.None?
      ensures IsActiveId(h.entities, h.relations[i].source) && IsActiveId(h.entities, h.relations[i].target)
    {
      ActiveIdSurvives(g.entities, g.relations[i].source, id, now);
      ActiveIdSurvives(g.entities, g.relations[i].target, id, now);
    }
  }

  /**
  The foreign keys ask only that the endpoints exist: a successful add keeps
  active relations between active entities exactly when both endpoints are
  active. Otherwise a later cascade lists an entity that was closed before.
  */
  lemma AddKeepsTightIff(
    g: Graph, source: string, target: string, kind: string, memory: string,
    validFrom: Option<int>, uuid: string, now: int)
    requires Tight(g) && Related(g, source, target, kind, memory, validFrom, uuid, now).1.Ok?
    ensures Tight(Related(g, source, target, kind, memory, validFrom, uuid, now).0) <==>
            IsActiveId(g.entities, source) && IsActiveId(g.entities, target)
    ensures IsEndpoint(Related(g, source, target, kind, memory, validFrom, uuid, now).0, memory, source)
    ensures IsEndpoint(Related(g, source, target, kind, memory, validFrom, uuid, now).0, memory, target)
  {
    var h := Related(g, source, target, kind, memory, validFrom, uuid, now).0;
    var n := |g.relations|;
    assert h.relations[n].source == source && h.relations[n].target == target && h.relations[n].validTo.None?;
    assert IsActiveFor(h.relations[n], memory) && Touches(h.relations[n], source) && Touches(h.relations[n], target);
  }

  /**
  Such a run: an entity is closed, related to itself afterwards, and then listed
  by the cascade although it was closed before.
  */
  lemma ClosedEntityIsListed(name: string, memory: string)
    ensures var ops := [Upsert(name, "concept", None, "e", 1), Invalidate("e", 2),
                        Relate("e", "e", "is", memory, None, "r", 3)];
            var g := Run(Graph([], []), ops);
            && g.entities == [Entity("e", name, "concept", 1, 1, Some(2))]
            && IsEndpoint(g, memory, "e") && !Tight(g)
  {
    var first, second, third :=
      Upsert(name, "concept", None, "e", 1), Invalidate("e", 2), Relate("e", "e", "is", memory, None, "r", 3);
    var g0 := Graph([], []);
    var g1 := Graph([Entity("e", name, "concept", 1, 1, None)], []);
    var g2 := Graph([Entity("e", name, "concept", 1, 1, Some(2))], []);
    var r := Relation("r", "e", "e", "is", 3, memory, 3, None);
    var g3 := Graph(g2.entities, [r]);
    assert Step(g0, first) == g1;
    assert ClosedEntities(g1.entities, "e", 2) == g2.entities;
    assert Step(g1, second) == g2;
    assert g2.entities[0].id == "e" && HasId(g2.entities, "e") && !HasRelationId([], "r");
    assert Step(g2, third) == g3;
    assert [first, second, third][1..] == [second, third] && [second, third][1..] == [third] && [third][1..] == [];
    assert Run(g3, []) == g3;
    assert Run(g2, [third]) == Run(g3, []);
    assert Run(g1, [second, third]) == Run(g2, [third]);
    assert g3.relations[0] == r && IsActiveFor(r, memory) && Touches(r, "e");
  }
}
