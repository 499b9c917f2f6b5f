/** Event schemas and the registry that maps wire type ids to them
    (dial9-trace-format/src/schema.rs). */
module Schema {
  import opened Wire
  import opened Wrappers
  import opened Utf8
  import opened Types

  datatype FieldDef = FieldDef(name: Text, fieldType: FieldType)

  datatype SchemaEntry = SchemaEntry(name: Text, hasTimestamp: bool, fields: seq<FieldDef>)

  function FieldTypes(fields: seq<FieldDef>): seq<FieldType> {
    seq(|fields|, i requires 0 <= i < |fields| => fields[i].fieldType)
  }

  /** Every id in `ids` is below `bound`. */
  ghost predicate AllBelow(ids: set<u16>, bound: nat) {
    forall id :: id in ids ==> id < bound
  }

  /** The least id above `from` and above every id in `ids`. */
  ghost predicate IsNextAfter(ids: set<u16>, from: nat, next: nat) {
    && from <= next
    && AllBelow(ids, next)
    && (next > from ==> next - 1 in ids)
  }

  class SchemaRegistry {
    var schemas: map<u16, SchemaEntry>
    var nextId: nat

    constructor ()
      ensures schemas == map[] && nextId == 0
    {
      schemas, nextId := map[], 0;
    }

    method Clear()
      modifies this
      ensures schemas == map[] && nextId == 0
    {
      schemas, nextId := map[], 0;
    }

    /** A second schema under a used id is accepted only if it is the same one; a refusal
        changes nothing. */
    method Register(typeId: u16, entry: SchemaEntry) returns (ok: bool)
      modifies this`schemas
      ensures ok <==> old(typeId !in schemas || schemas[typeId] == entry)
      ensures schemas == if ok then old(schemas)[typeId := entry] else old(schemas)
    {
      if typeId in schemas {
        ok := schemas[typeId] == entry;
        assert ok ==> schemas[typeId := entry] == schemas;
      } else {
        schemas := schemas[typeId := entry];
        ok := true;
      }
    }

    function Get(typeId: u16): Option<SchemaEntry>
      reads this
    {
      if typeId in schemas then Some(schemas[typeId]) else None
    }

    /** The u16 counter must not be exhausted. */
    method NextTypeId() returns (id: u16)
      requires nextId < TWO_16 - 1
      modifies this`nextId
      ensures id == old(nextId) && nextId == old(nextId) + 1
    {
      id := nextId;
      nextId := nextId + 1;
    }

    /** Advances the counter past every registered id, in whatever order the ids come. */
    method SyncNextId()
      modifies this`nextId
      ensures IsNextAfter(schemas.Keys, old(nextId), nextId)
    {
      var todo := schemas.Keys;
      assert schemas.Keys - todo == {};
      while todo != {}
        invariant todo <= schemas.Keys
        invariant IsNextAfter(schemas.Keys - todo, old(nextId), nextId)
        decreases todo
      {
        var id :| id in todo;
        assert schemas.Keys - (todo - {id}) == (schemas.Keys - todo) + {id};
        if id >= nextId {
          nextId := id + 1;
        }
        todo := todo - {id};
      }
      assert schemas.Keys - todo == schemas.Keys;
    }
  }
}
