/**
 * The record store client: point put, get and delete of serialized values
 * keyed by `(id, type)`, and the two scan loops `clear` and `keys`.
 * The document client is replaced by the table it manages, held in a field.
 */
module Adapter {
  import opened Store
  import opened Scan

  class ClientAdapter {
    /** The records of the table, by composite key. */
    var table: Table

    constructor (contents: Table)
      ensures table == contents
    {
      table := contents;
    }

    /** Puts the item `{id, type, value}`, replacing whatever item had that key. */
    method SetItem(recordType: string, id: string, value: Value)
      modifies this
      ensures table == Put(old(table), recordType, id, value)
    {
      table := table[Key(id, recordType) := Item(value, None)];
    }

    /** Reads the value under `(id, type)`; an absent record gives `None`, not an error. */
    method GetItem(recordType: string, id: string) returns (r: Option<Value>)
      ensures r == Get(table, recordType, id)
    {
      var key := Key(id, recordType);
      if key in table {
        r := Some(table[key].value);
      } else {
        r := None;
      }
    }

    /** Deletes the record under `(id, type)`; deleting an absent record changes nothing. */
    method RemoveItem(recordType: string, id: string)
      modifies this
      ensures table == Delete(old(table), recordType, id)
    {
      table := table - {Key(id, recordType)};
    }

    /**
     * The deletes `clear` issues for one scanned item: metadata, state,
     * initial and log of the item's id.
     */
    method RemoveSession(id: string)
      modifies this
      ensures table == WithoutSessions(old(table), {id})
    {
      RemoveItem(MetadataType, id);
      RemoveItem(StateType, id);
      RemoveItem(InitialType, id);
      RemoveItem(LogType, id);
      WithoutAbsentSessions(old(table), {});
      DeleteSession(old(table), {}, id);
      assert {} + {id} == {id};
    }

    /** The deletes `clear` issues for one response: those of every item, in order. */
    method RemoveSessionsOf(items: seq<ScannedItem>)
      modifies this
      ensures table == WithoutSessions(old(table), ItemIds(items))
    {
      var j := 0;
      WithoutAbsentSessions(table, {});
      assert ItemIds(items[..0]) == {};
      while j < |items|
        invariant 0 <= j <= |items|
        invariant table == WithoutSessions(old(table), ItemIds(items[..j]))
      {
        ghost var before := ItemIds(items[..j]);
        RemoveSession(items[j].id);
        WithoutSessionsCompose(old(table), before, {items[j].id});
        assert items[..j + 1] == items[..j] + [items[j]];
        assert ItemIds(items[..j + 1]) == before + {items[j].id};
        j := j + 1;
      }
      assert items[..j] == items;
    }

    /**
     * Scans until a response lacks `LastEvaluatedKey`; for every item of every
     * response that has `Items`, deletes all four record types of the item's id.
     */
    method Clear(pages: seq<Page>)
      requires Ends(pages)
      modifies this
      ensures table == WithoutSessions(old(table), IdsIn(Read(pages)))
    {
      ghost var read := Read(pages);
      var fetchMore := true;
      var i := 0;
      while fetchMore
        invariant 0 <= i <= |read|
        invariant fetchMore <==> i < |read|
        invariant table == WithoutSessions(old(table), IdsIn(pages[..i]))
        decreases |pages| - i
      {
        var result := pages[i];
        ghost var done := IdsIn(pages[..i]);
        assert result.hasMore <==> i + 1 < |read| by {
          assert result == read[i];
        }
        i := i + 1;
        ghost var now := IdsIn(pages[..i]);
        assert now == done + (if result.items.Some? then ItemIds(result.items.value) else {}) by {
          assert pages[..i] == pages[..i - 1] + [result];
          IdsInSnoc(pages[..i - 1], result);
        }
        if !result.hasMore {
          fetchMore := false;
        }
        if result.items.None? {
          continue;
        }
        RemoveSessionsOf(result.items.value);
        assert table == WithoutSessions(old(table), now) by {
          WithoutSessionsCompose(old(table), done, ItemIds(result.items.value));
        }
      }
      assert pages[..i] == read;
    }

    /**
     * Scans `state` records until a response lacks `LastEvaluatedKey`,
     * accumulating the ids that pass the `gameName` filter; a response
     * without `Items` makes the whole result `[]`.
     */
    method Keys(pages: seq<Page>, gameName: Option<string>) returns (results: seq<string>)
      requires Ends(pages)
      ensures results == Listing(pages, gameName)
    {
      ghost var read := Read(pages);
      results := [];
      var fetchMore := true;
      var i := 0;
      while fetchMore
        invariant 0 <= i <= |read|
        invariant fetchMore <==> i < |read|
        invariant Collect(pages[..i], gameName) == Some(results)
        decreases |pages| - i
      {
        var result := pages[i];
        assert result.hasMore <==> i + 1 < |read| by {
          assert result == read[i];
        }
        i := i + 1;
        if !result.hasMore {
          fetchMore := false;
        }
        if result.items.None? {
          assert Listing(pages, gameName) == [] by {
            assert read[i - 1] == result;
            CollectNone(read, gameName);
          }
          return [];
        }
        ghost var ids := PageIds(result.items.value, gameName);
        assert Collect(pages[..i], gameName) == Some(results + ids) by {
          assert pages[..i] == pages[..i - 1] + [result];
          CollectAppend(pages[..i - 1], [result], gameName);
          assert Collect([result], gameName) == Some(ids + []);
          assert ids + [] == ids;
        }
        results := results + PageIds(result.items.value, gameName);
      }
      assert pages[..i] == read;
    }
  }
}
