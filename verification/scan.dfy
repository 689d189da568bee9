/**
 * Paginated scans. A scan is modelled by the finite sequence of page
 * responses the store gives to the repeated `scan` calls of one
 * `while (fetchMore)` loop; neither loop passes an `ExclusiveStartKey`,
 * so what each response holds is up to the store.
 */
module Scan {
  import opened Store

  /** An item of a scan page, with the attributes the adapter reads. */
  datatype ScannedItem = ScannedItem(id: string, recordType: string, gameName: Option<string>)

  /** One scan response: `Items`, possibly absent, and whether `LastEvaluatedKey` was set. */
  datatype Page = Page(items: Option<seq<ScannedItem>>, hasMore: bool)

  /** Some response comes without `LastEvaluatedKey`, so a scan loop over `pages` ends. */
  predicate Ends(pages: seq<Page>) {
    exists i :: 0 <= i < |pages| && !pages[i].hasMore
  }

  /**
   * The pages a scan loop reads: every page up to and including the first one
   * without `LastEvaluatedKey`.
   */
  function Read(pages: seq<Page>): (r: seq<Page>)
    requires Ends(pages)
    ensures 0 < |r| <= |pages| && r == pages[..|r|]
    ensures !r[|r| - 1].hasMore
    ensures forall j :: 0 <= j < |r| - 1 ==> r[j].hasMore
  {
    if !pages[0].hasMore then [pages[0]]
    else
      assert Ends(pages[1..]) by {
        var i :| 0 <= i < |pages| && !pages[i].hasMore;
        assert !pages[1..][i - 1].hasMore;
      }
      [pages[0]] + Read(pages[1..])
  }

  /** Responses after the first page without `LastEvaluatedKey` are never read. */
  lemma {:induction false} ReadIgnoresRest(pages: seq<Page>, more: seq<Page>)
    requires Ends(pages)
    ensures Ends(pages + more) && Read(pages + more) == Read(pages)
  {
    var i :| 0 <= i < |pages| && !pages[i].hasMore;
    assert (pages + more)[i] == pages[i];
    if pages[0].hasMore {
      assert (pages + more)[1..] == pages[1..] + more;
      assert !pages[1..][i - 1].hasMore;
      ReadIgnoresRest(pages[1..], more);
    }
  }

  /**
   * Whether the `gameName` filter of `keys` keeps an item: the filter applies
   * only when the option is given and truthy (a non-empty string), and then
   * compares the item's own `gameName` attribute.
   */
  predicate Matches(gameName: Option<string>, it: ScannedItem)
    ensures gameName == Some("") ==> Matches(gameName, it)
    ensures it.gameName == gameName ==> Matches(gameName, it)
  {
    gameName.None? || gameName.value == "" || it.gameName == gameName
  }

  /**
   * The ids one page of `keys` contributes, in page order: the items with
   * type `state` (the scan's `FilterExpression`, evaluated by the store) that
   * pass the `gameName` filter.
   */
  function PageIds(items: seq<ScannedItem>, gameName: Option<string>): (r: seq<string>)
    ensures |r| <= |items|
  {
    if items == [] then []
    else
      var head := if items[0].recordType == StateType && Matches(gameName, items[0]) then [items[0].id] else [];
      head + PageIds(items[1..], gameName)
  }

  /** A page contributes an id exactly when it holds a `state` item with that id that passes the filter. */
  lemma {:induction false} PageIdsMembers(items: seq<ScannedItem>, gameName: Option<string>, id: string)
    ensures id in PageIds(items, gameName) <==>
      exists it :: it in items && it.recordType == StateType && Matches(gameName, it) && it.id == id
  {
    if items != [] {
      PageIdsMembers(items[1..], gameName, id);
      assert forall it :: it in items <==> it == items[0] || it in items[1..];
    }
  }

  /** A page whose items all fail the filters contributes no id. */
  lemma {:induction false} PageIdsNoMatch(items: seq<ScannedItem>, gameName: Option<string>)
    requires forall it :: it in items ==> !(it.recordType == StateType && Matches(gameName, it))
    ensures PageIds(items, gameName) == []
  {
    if items != [] {
      assert items[0] in items;
      assert forall it :: it in items[1..] ==> it in items;
      PageIdsNoMatch(items[1..], gameName);
    }
  }

  /**
   * What `keys` accumulates over the pages `read`: `None` as soon as a page
   * lacks `Items` (the loop then returns `[]`), else the pages' ids in order.
   */
  function Collect(read: seq<Page>, gameName: Option<string>): Option<seq<string>> {
    if read == [] then Some([])
    else if read[0].items.None? then None
    else
      match Collect(read[1..], gameName)
      case None => None
      case Some(rest) => Some(PageIds(read[0].items.value, gameName) + rest)
  }

  /** Collecting fails exactly when some read page lacks `Items`. */
  lemma {:induction false} CollectNone(read: seq<Page>, gameName: Option<string>)
    ensures Collect(read, gameName).None? <==> exists p :: p in read && p.items.None?
  {
    if read != [] {
      CollectNone(read[1..], gameName);
      assert forall p :: p in read <==> p == read[0] || p in read[1..];
    }
  }

  /** Collecting over two runs of pages collects over each and concatenates. */
  lemma {:induction false} CollectAppend(a: seq<Page>, b: seq<Page>, gameName: Option<string>)
    ensures Collect(a + b, gameName) ==
      match Collect(a, gameName)
      case None => None
      case Some(x) =>
        match Collect(b, gameName)
        case None => None
        case Some(y) => Some(x + y)
  {
    if a == [] {
      assert a + b == b;
      match Collect(b, gameName)
      case None =>
      case Some(y) => assert [] + y == y;
    } else {
      assert (a + b)[0] == a[0];
      assert (a + b)[1..] == a[1..] + b;
      CollectAppend(a[1..], b, gameName);
      if a[0].items.Some? {
        match Collect(a[1..], gameName)
        case None =>
        case Some(x) =>
          match Collect(b, gameName)
          case None =>
          case Some(y) =>
            assert PageIds(a[0].items.value, gameName) + (x + y) == (PageIds(a[0].items.value, gameName) + x) + y;
      }
    }
  }

  /** An id is collected exactly when some read page holds a `state` item with that id that passes the filter. */
  lemma {:induction false} CollectMembers(read: seq<Page>, gameName: Option<string>, id: string)
    requires Collect(read, gameName).Some?
    ensures id in Collect(read, gameName).value <==>
      exists p, it :: p in read && p.items.Some? && it in p.items.value
        && it.recordType == StateType && Matches(gameName, it) && it.id == id
  {
    if read != [] {
      CollectMembers(read[1..], gameName, id);
      PageIdsMembers(read[0].items.value, gameName, id);
      assert forall p :: p in read <==> p == read[0] || p in read[1..];
    }
  }

  /** Pages whose items all fail the filters collect no id. */
  lemma {:induction false} CollectNoMatch(read: seq<Page>, gameName: Option<string>)
    requires forall p, it :: p in read && p.items.Some? && it in p.items.value ==>
      !(it.recordType == StateType && Matches(gameName, it))
    ensures Collect(read, gameName) == None || Collect(read, gameName) == Some([])
  {
    if read != [] {
      assert read[0] in read;
      assert forall p :: p in read[1..] ==> p in read;
      CollectNoMatch(read[1..], gameName);
      if read[0].items.Some? {
        PageIdsNoMatch(read[0].items.value, gameName);
        match Collect(read[1..], gameName)
        case None =>
        case Some(rest) => assert [] + rest == rest;
      }
    }
  }

  /** The ids `keys` returns for the responses `pages`. */
  function Listing(pages: seq<Page>, gameName: Option<string>): (r: seq<string>)
    requires Ends(pages)
    ensures !pages[0].hasMore && pages[0].items.None? ==> r == []
    ensures !pages[0].hasMore && pages[0].items.Some? ==> r == PageIds(pages[0].items.value, gameName)
  {
    assert !pages[0].hasMore && pages[0].items.Some? ==>
      Collect(Read(pages), gameName) == Some(PageIds(pages[0].items.value, gameName)) by {
      if !pages[0].hasMore && pages[0].items.Some? {
        assert Read(pages) == [pages[0]] && [pages[0]][1..] == [];
        assert PageIds(pages[0].items.value, gameName) + [] == PageIds(pages[0].items.value, gameName);
      }
    }
    match Collect(Read(pages), gameName)
    case None => []
    case Some(ids) => ids
  }

  /**
   * `keys` returns `[]` when a read page lacks `Items`; otherwise it lists
   * exactly the ids of the read pages' `state` items that pass the filter.
   */
  lemma ListingMembers(pages: seq<Page>, gameName: Option<string>)
    requires Ends(pages)
    ensures (exists p :: p in Read(pages) && p.items.None?) ==> Listing(pages, gameName) == []
    ensures (forall p :: p in Read(pages) ==> p.items.Some?) ==>
      forall id :: id in Listing(pages, gameName) <==>
        exists p, it :: p in Read(pages) && p.items.Some? && it in p.items.value
          && it.recordType == StateType && Matches(gameName, it) && it.id == id
  {
    CollectNone(Read(pages), gameName);
    if Collect(Read(pages), gameName).Some? {
      forall id {
        CollectMembers(Read(pages), gameName, id);
      }
    }
  }

  /** The ids of a page's items, whatever their type. */
  function ItemIds(items: seq<ScannedItem>): set<string> {
    set it | it in items :: it.id
  }

  /** The sessions `clear` deletes for the pages `read`: the ids of the items of every page that has `Items`. */
  function IdsIn(read: seq<Page>): (r: set<string>)
    ensures |read| == 1 ==> r == (if read[0].items.Some? then ItemIds(read[0].items.value) else {})
  {
    if read == [] then {}
    else (if read[0].items.Some? then ItemIds(read[0].items.value) else {}) + IdsIn(read[1..])
  }

  /** An id is deleted exactly when some read page with `Items` holds an item with that id, whatever its type. */
  lemma {:induction false} IdsInMembers(read: seq<Page>, id: string)
    ensures id in IdsIn(read) <==>
      exists p, it :: p in read && p.items.Some? && it in p.items.value && it.id == id
  {
    if read != [] {
      IdsInMembers(read[1..], id);
      assert forall p :: p in read <==> p == read[0] || p in read[1..];
    }
  }

  /** Reading one more page adds the ids of its items, if it has `Items`. */
  lemma {:induction false} IdsInSnoc(read: seq<Page>, p: Page)
    ensures IdsIn(read + [p]) == IdsIn(read) + (if p.items.Some? then ItemIds(p.items.value) else {})
  {
    if read == [] {
      assert [p][1..] == [];
    } else {
      assert (read + [p])[0] == read[0];
      assert (read + [p])[1..] == read[1..] + [p];
      IdsInSnoc(read[1..], p);
    }
  }

  /** Every item of every page with `Items` is a record of `t`, with the same `gameName`. */
  ghost predicate ScannedFrom(read: seq<Page>, t: Table) {
    forall p, it :: p in read && p.items.Some? && it in p.items.value ==>
      Key(it.id, it.recordType) in t && t[Key(it.id, it.recordType)].gameName == it.gameName
  }

  /** Every `state` record of `t` appears among the items of the pages `read`. */
  ghost predicate CoversStates(read: seq<Page>, t: Table) {
    forall k :: k in t && k.recordType == StateType ==>
      exists p, it :: p in read && p.items.Some? && it in p.items.value && it.id == k.id && it.recordType == StateType
  }

  /**
   * Items this adapter writes carry no `gameName` attribute, so over a table
   * written only through it, a `gameName` filter lists nothing.
   */
  lemma FilterListsNothing(pages: seq<Page>, t: Table, name: string)
    requires Ends(pages) && ScannedFrom(Read(pages), t) && AdapterWritten(t)
    requires name != ""
    ensures Listing(pages, Some(name)) == []
  {
    CollectNoMatch(Read(pages), Some(name));
  }

  /**
   * A session is listed iff its `state` record exists, when the responses
   * come from the table, all have `Items`, cover every `state` record, and no
   * `gameName` filter is given.
   */
  lemma ListingIsStateRecords(pages: seq<Page>, t: Table, id: string)
    requires Ends(pages) && ScannedFrom(Read(pages), t) && CoversStates(Read(pages), t)
    requires forall p :: p in Read(pages) ==> p.items.Some?
    ensures id in Listing(pages, None) <==> Key(id, StateType) in t
  {
    ListingMembers(pages, None);
    if Key(id, StateType) in t {
      var k := Key(id, StateType);
      assert k in t && k.recordType == StateType;
    }
  }
}
