/**
 * The session table: stored values, composite keys, stored items, and the
 * point operations (get, put, delete) the adapter performs on it.
 */
module Store {

  datatype Option<T> = None | Some(value: T)

  /**
   * A JSON value. Every value the adapter stores goes through `JSON.stringify`
   * and comes back through `JSON.parse`; on these values that pair is the identity.
   */
  datatype Value =
    | Null
    | Bool(b: bool)
    | Num(n: int)
    | Str(s: string)
    | Arr(elems: seq<Value>)
    | Obj(fields: seq<(string, Value)>)

  /**
   * JavaScript falsiness of a parsed value (`null`, `false`, `0`, `""`);
   * arrays and objects, even empty ones, are truthy.
   */
  predicate Falsy(v: Value)
    ensures Falsy(v) ==> !v.Arr? && !v.Obj?
  {
    v == Null || v == Bool(false) || v == Num(0) || v == Str("")
  }

  /** The four record types a session is split into. */
  const StateType: string := "state"
  const InitialType: string := "initial"
  const MetadataType: string := "metadata"
  const LogType: string := "log"
  const RecordTypes: set<string> := {StateType, InitialType, MetadataType, LogType}

  /** The table's composite primary key: `id` (hash key) and `type` (range key). */
  datatype Key = Key(id: string, recordType: string)

  /**
   * The non-key attributes of a stored item: the serialized `value`, and a
   * `gameName` attribute that only items written by some other writer carry.
   */
  datatype Item = Item(value: Value, gameName: Option<string>)

  type Table = map<Key, Item>

  /** `r` agrees with `t` on every key outside `keys`. */
  ghost predicate AgreeOutside(t: Table, r: Table, keys: set<Key>) {
    forall k :: k !in keys ==> (k in r <==> k in t) && (k in t ==> r[k] == t[k])
  }

  /** A log record holds an array, or a falsy value that `oldLog || []` replaces by `[]`. */
  predicate LogShaped(v: Value) {
    v.Arr? || Falsy(v)
  }

  /** Every `log` record of the table is log-shaped. */
  predicate LogsShaped(t: Table) {
    forall k :: k in t && k.recordType == LogType ==> LogShaped(t[k].value)
  }

  /** Every item carries no `gameName` attribute, as for items this adapter writes. */
  predicate AdapterWritten(t: Table) {
    forall k :: k in t ==> t[k].gameName.None?
  }

  /** The value stored under `(id, recordType)`; `None` when there is no such record. */
  function Get(t: Table, recordType: string, id: string): (r: Option<Value>)
    ensures r.Some? <==> Key(id, recordType) in t
    ensures r.Some? ==> r.value == t[Key(id, recordType)].value
  {
    var k := Key(id, recordType);
    if k in t then Some(t[k].value) else None
  }

  /** An unconditional put of the item `{id, type, value}`: it replaces the whole item. */
  function Put(t: Table, recordType: string, id: string, v: Value): (r: Table)
    ensures Get(r, recordType, id) == Some(v)
    ensures Key(id, recordType) in r && r[Key(id, recordType)].gameName == None
    ensures AgreeOutside(t, r, {Key(id, recordType)})
    ensures LogsShaped(t) && (recordType == LogType ==> LogShaped(v)) ==> LogsShaped(r)
    ensures AdapterWritten(t) ==> AdapterWritten(r)
  {
    t[Key(id, recordType) := Item(v, None)]
  }

  /** A delete by key; deleting an absent key changes nothing. */
  function Delete(t: Table, recordType: string, id: string): (r: Table)
    ensures Get(r, recordType, id) == None
    ensures AgreeOutside(t, r, {Key(id, recordType)})
    ensures Key(id, recordType) !in t ==> r == t
    ensures LogsShaped(t) ==> LogsShaped(r)
    ensures AdapterWritten(t) ==> AdapterWritten(r)
  {
    t - {Key(id, recordType)}
  }

  /**
   * The table once all four record types of every session in `ids` are removed.
   * Records of other sessions, and records of other types, stay.
   */
  function WithoutSessions(t: Table, ids: set<string>): (r: Table)
    ensures forall k :: k in r <==> k in t && !(k.id in ids && k.recordType in RecordTypes)
    ensures forall id, ty :: id in ids && ty in RecordTypes ==> Get(r, ty, id) == None
    ensures forall k :: k in r ==> r[k] == t[k]
    ensures LogsShaped(t) ==> LogsShaped(r)
    ensures AdapterWritten(t) ==> AdapterWritten(r)
  {
    map k | k in t && !(k.id in ids && k.recordType in RecordTypes) :: t[k]
  }

  /** Puts on distinct keys commute, so the order of a fan-out of puts does not matter. */
  lemma PutsCommute(t: Table, ty1: string, id1: string, v1: Value, ty2: string, id2: string, v2: Value)
    requires Key(id1, ty1) != Key(id2, ty2)
    ensures Put(Put(t, ty1, id1, v1), ty2, id2, v2) == Put(Put(t, ty2, id2, v2), ty1, id1, v1)
  {
  }

  /** Removing the sessions `a` and then the sessions `b` removes the sessions `a + b`. */
  lemma WithoutSessionsCompose(t: Table, a: set<string>, b: set<string>)
    ensures WithoutSessions(WithoutSessions(t, a), b) == WithoutSessions(t, a + b)
  {
    var l, r := WithoutSessions(WithoutSessions(t, a), b), WithoutSessions(t, a + b);
    assert l.Keys == r.Keys;
  }

  /** Removing the same sessions twice is the same as removing them once. */
  lemma WithoutSessionsIdempotent(t: Table, ids: set<string>)
    ensures WithoutSessions(WithoutSessions(t, ids), ids) == WithoutSessions(t, ids)
  {
    WithoutSessionsCompose(t, ids, ids);
    assert ids + ids == ids;
  }

  /** Removing sessions that have no record of the four types leaves the table as it was. */
  lemma WithoutAbsentSessions(t: Table, ids: set<string>)
    requires forall k :: k in t ==> k.id !in ids || k.recordType !in RecordTypes
    ensures WithoutSessions(t, ids) == t
  {
    assert WithoutSessions(t, ids).Keys == t.Keys;
  }

  /** Removing two key sets one after the other removes their union. */
  lemma RemoveBoth(t: Table, s1: set<Key>, s2: set<Key>)
    ensures t - s1 - s2 == t - (s1 + s2)
  {
    assert (t - s1 - s2).Keys == (t - (s1 + s2)).Keys;
  }

  /** Four deletes remove exactly the four keys, whatever their order. */
  lemma DeleteFour(w: Table, id: string, a: string, b: string, c: string, d: string)
    ensures Delete(Delete(Delete(Delete(w, a, id), b, id), c, id), d, id)
      == w - {Key(id, a), Key(id, b), Key(id, c), Key(id, d)}
  {
    var r1 := Delete(w, a, id);
    var r2 := Delete(r1, b, id);
    var r3 := Delete(r2, c, id);
    RemoveBoth(w, {Key(id, a)}, {Key(id, b)});
    RemoveBoth(w, {Key(id, a), Key(id, b)}, {Key(id, c)});
    RemoveBoth(w, {Key(id, a), Key(id, b), Key(id, c)}, {Key(id, d)});
    assert {Key(id, a)} + {Key(id, b)} == {Key(id, a), Key(id, b)};
    assert {Key(id, a), Key(id, b)} + {Key(id, c)} == {Key(id, a), Key(id, b), Key(id, c)};
    assert {Key(id, a), Key(id, b), Key(id, c)} + {Key(id, d)} == {Key(id, a), Key(id, b), Key(id, c), Key(id, d)};
  }

  lemma WithoutOneMore(t: Table, ids: set<string>, id: string)
    ensures WithoutSessions(t, ids) - {Key(id, StateType), Key(id, InitialType), Key(id, MetadataType), Key(id, LogType)}
      == WithoutSessions(t, ids + {id})
  {
    var w := WithoutSessions(t, ids);
    var keys := {Key(id, StateType), Key(id, InitialType), Key(id, MetadataType), Key(id, LogType)};
    var r := WithoutSessions(t, ids + {id});
    forall k | k in t
      ensures k in w - keys <==> k in r
    {
      assert k in keys <==> k.id == id && k.recordType in RecordTypes;
    }
    assert (w - keys).Keys == r.Keys;
  }

  /**
   * Deleting the four record types of `id`, in either of the two orders the
   * adapter uses (wipe: state, initial, metadata, log; clear: metadata, state,
   * initial, log), removes the session `id`.
   */
  lemma DeleteSession(t: Table, ids: set<string>, id: string)
    ensures
      var w := WithoutSessions(t, ids);
      Delete(Delete(Delete(Delete(w, StateType, id), InitialType, id), MetadataType, id), LogType, id)
        == WithoutSessions(t, ids + {id})
    ensures
      var w := WithoutSessions(t, ids);
      Delete(Delete(Delete(Delete(w, MetadataType, id), StateType, id), InitialType, id), LogType, id)
        == WithoutSessions(t, ids + {id})
  {
    var w := WithoutSessions(t, ids);
    DeleteFour(w, id, StateType, InitialType, MetadataType, LogType);
    DeleteFour(w, id, MetadataType, StateType, InitialType, LogType);
    assert {Key(id, MetadataType), Key(id, StateType), Key(id, InitialType), Key(id, LogType)}
        == {Key(id, StateType), Key(id, InitialType), Key(id, MetadataType), Key(id, LogType)};
    WithoutOneMore(t, ids, id);
  }
}
