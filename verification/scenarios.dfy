/**
 * Clients of the session storage service that replay the repository's test
 * cases on a fresh, empty table, using only the contracts of its methods.
 */
module Scenarios {
  import opened Store
  import opened Scan
  import opened Storage

  /** Fetching a game that was never created gives no state, and no error. */
  method FetchMissingGame(id: string) returns (result: FetchResult)
    ensures result.state == None
  {
    var db := new DynamoStorage(map[]);
    result := db.Fetch(id, FetchOpts(true, false, false, false));
  }

  /** A created game fetches back its state, an equal initial state, and its metadata. */
  method FetchCreatedGame(id: string, state: Value, metadata: Value) returns (result: FetchResult)
    ensures result.state == Some(state)
    ensures result.initialState == result.state
    ensures result.metadata == Some(metadata)
    ensures result.log == None
  {
    var db := new DynamoStorage(map[]);
    db.CreateGame(id, state, metadata);
    result := db.Fetch(id, FetchOpts(true, true, true, true));
  }

  /** After a wipe, a fetch of every field of the game comes back empty; wiping again is harmless. */
  method FetchWipedGame(id: string, state: Value, metadata: Value) returns (result: FetchResult)
    ensures result == FetchResult(None, None, None, None)
  {
    var db := new DynamoStorage(map[]);
    db.CreateGame(id, state, metadata);
    db.Wipe(id);
    db.Wipe(id);
    result := db.Fetch(id, FetchOpts(true, true, true, true));
  }

  /** Two `setState` calls with one log entry each leave both entries in the log, in order. */
  method FetchAppendedLog(id: string, e1: Value, e2: Value) returns (result: FetchResult)
    ensures result.log == Some(Arr([e1, e2]))
  {
    var db := new DynamoStorage(map[]);
    db.SetState(id, Null, Some([e1]));
    db.SetState(id, Null, Some([e2]));
    result := db.Fetch(id, FetchOpts(false, false, true, false));
    LogAppendsInOrder(map[], id, Null, Null, e1, e2);
  }

  /** The three records `createGame` writes to an empty table, as one scan response returns them. */
  function CreatedItems(id: string): seq<ScannedItem> {
    [ScannedItem(id, InitialType, None), ScannedItem(id, StateType, None), ScannedItem(id, MetadataType, None)]
  }

  /** A scan response holding those three records is a complete scan of the created table. */
  lemma CreatedScan(id: string, state: Value, metadata: Value)
    ensures ScannedFrom([Page(Some(CreatedItems(id)), false)], Created(map[], id, state, metadata))
    ensures CoversStates([Page(Some(CreatedItems(id)), false)], Created(map[], id, state, metadata))
  {
    var t := Created(map[], id, state, metadata);
    var page := Page(Some(CreatedItems(id)), false);
    assert t == map[Key(id, InitialType) := Item(state, None), Key(id, StateType) := Item(state, None),
      Key(id, MetadataType) := Item(metadata, None)];
    assert page.items.value[1] == ScannedItem(id, StateType, None);
  }

  /**
   * After creating one game, a single scan response holding the table's three
   * records lists exactly that game.
   */
  method ListCreatedGame(id: string, state: Value, metadata: Value) returns (keys: seq<string>)
    ensures keys == [id]
  {
    var db := new DynamoStorage(map[]);
    db.CreateGame(id, state, metadata);
    var items := CreatedItems(id);
    var pages := [Page(Some(items), false)];
    assert Read(pages) == pages by {
      assert !pages[0].hasMore;
    }
    CreatedScan(id, state, metadata);
    assert ScannedFrom(Read(pages), db.store.table) && CoversStates(Read(pages), db.store.table);
    keys := db.ListGames(pages, None);
    assert PageIds(items, None) == [id] by {
      var tail := PageIds(items[2..], None);
      assert items[2..] == [items[2]] && [items[2]][1..] == [];
      assert tail == [] + PageIds([], None) == [];
      assert items[1..][1..] == items[2..];
      assert PageIds(items[1..], None) == [id] + tail == [id];
      assert PageIds(items, None) == [] + PageIds(items[1..], None);
    }
  }
}
