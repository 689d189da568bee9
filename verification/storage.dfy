/**
 * The session storage service: each game session is the union of up to four
 * records (`state`, `initial`, `metadata`, `log`) of one table, and every
 * session operation is composed of record operations of the client adapter.
 * The concurrent fan-outs of the service run here one after the other; their
 * sub-operations touch distinct keys (see `PutsCommute`, `SetStateOrderIrrelevant`).
 */
module Storage {
  import opened Store
  import opened Scan
  import opened Adapter

  /** The fields `fetch` is asked for. */
  datatype FetchOpts = FetchOpts(state: bool, metadata: bool, log: bool, initialState: bool)

  /** The result of `fetch`; `None` is a field that is missing (or `undefined`). */
  datatype FetchResult = FetchResult(
    state: Option<Value>,
    metadata: Option<Value>,
    log: Option<Value>,
    initialState: Option<Value>)

  /** `oldLog || []`: the entries of a stored log, or none when it is absent or falsy. */
  function EntriesOr(oldLog: Option<Value>): (r: seq<Value>)
    requires oldLog.Some? ==> LogShaped(oldLog.value)
    ensures oldLog.None? ==> r == []
    ensures oldLog.Some? && oldLog.value.Arr? ==> r == oldLog.value.elems
  {
    if oldLog.None? || Falsy(oldLog.value) then [] else oldLog.value.elems
  }

  /** The log of session `id`, as `setLog` reads it. */
  function LogEntries(t: Table, id: string): seq<Value>
    requires LogsShaped(t)
  {
    EntriesOr(Get(t, LogType, id))
  }

  /** The entries a `deltalog` argument adds; an absent one adds none. */
  function Delta(deltalog: Option<seq<Value>>): seq<Value> {
    if deltalog.Some? then deltalog.value else []
  }

  /**
   * The table after `setLog`: a non-empty `deltalog` is appended to the old
   * log and the whole log written back; an absent or empty one writes nothing.
   */
  function AppendLog(t: Table, id: string, deltalog: Option<seq<Value>>): (r: Table)
    requires LogsShaped(t)
    ensures LogsShaped(r)
    ensures LogEntries(r, id) == LogEntries(t, id) + Delta(deltalog)
    ensures Delta(deltalog) == [] ==> r == t
    ensures Delta(deltalog) != [] ==> Get(r, LogType, id) == Some(Arr(LogEntries(t, id) + Delta(deltalog)))
    ensures AgreeOutside(t, r, {Key(id, LogType)})
  {
    if deltalog.None? || |deltalog.value| == 0 then t
    else Put(t, LogType, id, Arr(EntriesOr(Get(t, LogType, id)) + deltalog.value))
  }

  /** The table after `setState`: the state is overwritten and the log extended by `deltalog`. */
  function StateSet(t: Table, id: string, state: Value, deltalog: Option<seq<Value>>): (r: Table)
    requires LogsShaped(t)
    ensures LogsShaped(r)
    ensures Get(r, StateType, id) == Some(state)
    ensures LogEntries(r, id) == LogEntries(t, id) + Delta(deltalog)
    ensures Delta(deltalog) == [] ==> Get(r, LogType, id) == Get(t, LogType, id)
    ensures Delta(deltalog) != [] ==> Get(r, LogType, id) == Some(Arr(LogEntries(t, id) + Delta(deltalog)))
    ensures AgreeOutside(t, r, {Key(id, StateType), Key(id, LogType)})
  {
    Put(AppendLog(t, id, deltalog), StateType, id, state)
  }

  /**
   * The table after `createGame`: `initial` and `state` hold the initial
   * state, `metadata` the metadata; the log and all other records are untouched.
   */
  function Created(t: Table, id: string, initialState: Value, metadata: Value): (r: Table)
    requires LogsShaped(t)
    ensures LogsShaped(r)
    ensures Get(r, InitialType, id) == Some(initialState)
    ensures Get(r, StateType, id) == Some(initialState)
    ensures Get(r, MetadataType, id) == Some(metadata)
    ensures AgreeOutside(t, r, {Key(id, InitialType), Key(id, StateType), Key(id, MetadataType)})
  {
    Put(StateSet(Put(t, InitialType, id, initialState), id, initialState, None), MetadataType, id, metadata)
  }

  /**
   * Two sequential `setState` calls with deltalogs `[e1]` and `[e2]` on a
   * session without a log leave the log `[e1, e2]`.
   */
  lemma LogAppendsInOrder(t: Table, id: string, s1: Value, s2: Value, e1: Value, e2: Value)
    requires LogsShaped(t) && Get(t, LogType, id) == None
    ensures Get(StateSet(StateSet(t, id, s1, Some([e1])), id, s2, Some([e2])), LogType, id)
      == Some(Arr([e1, e2]))
  {
    var t1 := StateSet(t, id, s1, Some([e1]));
    assert LogEntries(t1, id) == [e1];
    assert [e1] + [e2] == [e1, e2];
  }

  /**
   * The two halves of `setState` run concurrently; they touch distinct keys,
   * so writing the state before or after the log gives the same table.
   */
  lemma SetStateOrderIrrelevant(t: Table, id: string, state: Value, deltalog: Option<seq<Value>>)
    requires LogsShaped(t)
    ensures StateSet(t, id, state, deltalog) == AppendLog(Put(t, StateType, id, state), id, deltalog)
  {
    var t' := Put(t, StateType, id, state);
    if Delta(deltalog) != [] {
      assert Get(t', LogType, id) == Get(t, LogType, id);
      PutsCommute(t, LogType, id, Arr(LogEntries(t, id) + deltalog.value), StateType, id, state);
    }
  }

  /**
   * After a `clear` whose scan saw every session of a table holding only
   * session records, a listing over any scan of the cleared table is empty.
   */
  lemma ClearedListsNothing(t: Table, pages: seq<Page>, later: seq<Page>, gameName: Option<string>)
    requires Ends(pages) && Ends(later)
    requires forall k :: k in t ==> k.recordType in RecordTypes && k.id in IdsIn(Read(pages))
    requires ScannedFrom(Read(later), WithoutSessions(t, IdsIn(Read(pages))))
    ensures Listing(later, gameName) == []
  {
    var cleared := WithoutSessions(t, IdsIn(Read(pages)));
    assert cleared == map[];
    CollectNoMatch(Read(later), gameName);
  }

  class DynamoStorage {
    /** The client adapter every session operation goes through. */
    const store: ClientAdapter

    /** Every log record holds an array (or a falsy value), so appending to it is defined. */
    ghost predicate Valid()
      reads this, store
    {
      LogsShaped(store.table)
    }

    constructor (contents: Table)
      requires LogsShaped(contents)
      ensures Valid() && fresh(store) && store.table == contents
    {
      store := new ClientAdapter(contents);
    }

    /** Writes `initial`, `state` (through `setState`, without a deltalog) and `metadata`. */
    method CreateGame(id: string, initialState: Value, metadata: Value)
      requires Valid()
      modifies store
      ensures Valid()
      ensures store.table == Created(old(store.table), id, initialState, metadata)
    {
      store.SetItem(InitialType, id, initialState);
      SetState(id, initialState, None);
      SetMetadata(id, metadata);
    }

    /**
     * Reads the requested records only; a requested record that does not
     * exist leaves its field missing, and nothing is written.
     */
    method Fetch(id: string, opts: FetchOpts) returns (result: FetchResult)
      ensures result.state == (if opts.state then Get(store.table, StateType, id) else None)
      ensures result.metadata == (if opts.metadata then Get(store.table, MetadataType, id) else None)
      ensures result.log == (if opts.log then Get(store.table, LogType, id) else None)
      ensures result.initialState == (if opts.initialState then Get(store.table, InitialType, id) else None)
    {
      result := FetchResult(None, None, None, None);
      if opts.state {
        var value := store.GetItem(StateType, id);
        result := result.(state := value);
      }
      if opts.metadata {
        var value := store.GetItem(MetadataType, id);
        result := result.(metadata := value);
      }
      if opts.log {
        var value := store.GetItem(LogType, id);
        result := result.(log := value);
      }
      if opts.initialState {
        var value := store.GetItem(InitialType, id);
        result := result.(initialState := value);
      }
    }

    /** Removes every record of every session the scan responses name. */
    method Clear(pages: seq<Page>)
      requires Valid() && Ends(pages)
      modifies store
      ensures Valid()
      ensures store.table == WithoutSessions(old(store.table), IdsIn(Read(pages)))
    {
      store.Clear(pages);
    }

    /** Appends `deltalog` to the log (if non-empty) and overwrites the state. */
    method SetState(id: string, state: Value, deltalog: Option<seq<Value>>)
      requires Valid()
      modifies store
      ensures Valid()
      ensures store.table == StateSet(old(store.table), id, state, deltalog)
    {
      SetLog(id, deltalog);
      store.SetItem(StateType, id, state);
    }

    /** Overwrites the metadata record. */
    method SetMetadata(id: string, metadata: Value)
      requires Valid()
      modifies store
      ensures Valid()
      ensures store.table == Put(old(store.table), MetadataType, id, metadata)
    {
      store.SetItem(MetadataType, id, metadata);
    }

    /** Deletes the four records of the session; a session without records is left as it is. */
    method Wipe(id: string)
      requires Valid()
      modifies store
      ensures Valid()
      ensures store.table == WithoutSessions(old(store.table), {id})
    {
      store.RemoveItem(StateType, id);
      store.RemoveItem(InitialType, id);
      store.RemoveItem(MetadataType, id);
      store.RemoveItem(LogType, id);
      WithoutAbsentSessions(old(store.table), {});
      DeleteSession(old(store.table), {}, id);
      assert {} + {id} == {id};
    }

    /** The session ids `keys` lists for the scan responses `pages`. */
    method ListGames(pages: seq<Page>, gameName: Option<string>) returns (keys: seq<string>)
      requires Ends(pages)
      ensures keys == Listing(pages, gameName)
    {
      keys := store.Keys(pages, gameName);
    }

    /**
     * Reads the old log, appends `deltalog` and writes the whole log back;
     * does nothing for an absent or empty `deltalog`.
     */
    method SetLog(id: string, deltalog: Option<seq<Value>>)
      requires Valid()
      modifies store
      ensures Valid()
      ensures store.table == AppendLog(old(store.table), id, deltalog)
    {
      if deltalog.None? || |deltalog.value| == 0 {
        return;
      }
      var oldLog := store.GetItem(LogType, id);
      var newLog := EntriesOr(oldLog) + deltalog.value;
      store.SetItem(LogType, id, Arr(newLog));
    }
  }
}
