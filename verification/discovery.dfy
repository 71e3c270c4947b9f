/** `NotionMigrator._get_databases`: page through the database search,
    keep the databases whose title is on the allow-list, and retrieve the
    details of each kept database. */
module Discovery {
  import opened Notion
  import opened Text
  import opened Paging
  import opened Titles

  /** The hard-coded allow-list of database titles. */
  const AllowedDatabases: seq<string> := ["Data", "Backups", "Automations", "Cloud spaces", "Cloud providers", "External drives"]

  predicate IsAllowed(db: DbObject)
  {
    ExtractDatabaseTitle(db) in AllowedDatabases
  }

  /** The search results whose title is allowed, in search order. */
  function Kept(dbs: seq<DbObject>): seq<DbObject>
  {
    if dbs == [] then []
    else Kept(dbs[..|dbs| - 1]) + (if IsAllowed(dbs[|dbs| - 1]) then [dbs[|dbs| - 1]] else [])
  }

  /** One `{id, title, details}` record per kept database. */
  function Detailed(kept: seq<DbObject>, retrieve: string -> Details): seq<DetailedDb>
  {
    seq(|kept|, i requires 0 <= i < |kept| => DetailedDb(kept[i].id, ExtractDatabaseTitle(kept[i]), retrieve(kept[i].id)))
  }

  /** The search results the loop gathers before filtering. */
  function Found(search: seq<Response<DbObject>>): seq<DbObject>
    requires Ends(search)
  {
    AllResults(Consumed(search))
  }

  /** What `_get_databases` returns for a search script and a retrieve function. */
  function Discover(search: seq<Response<DbObject>>, retrieve: string -> Details): (r: seq<DetailedDb>)
    requires Ends(search)
    ensures forall i :: 0 <= i < |r| ==>
      r[i].title in AllowedDatabases && IsAscii(r[i].title) && r[i].details == retrieve(r[i].id)
  {
    KeptAllowed(Found(search));
    Detailed(Kept(Found(search)), retrieve)
  }

  /** The requests, in order: one search per consumed answer, then one retrieve per kept database. */
  function DiscoveryRequests(search: seq<Response<DbObject>>): seq<Request>
    requires Ends(search)
  {
    var kept := Kept(Found(search));
    seq(FirstFinal(search) + 1, j requires 0 <= j <= FirstFinal(search) => Search(CursorBefore(search, j)))
    + seq(|kept|, i requires 0 <= i < |kept| => Retrieve(kept[i].id))
  }

  /** The search loop of `_get_databases`: request with the cursor, gather
      `results`, stop at the first answer without `has_more`. */
  method SearchDatabases(search: seq<Response<DbObject>>) returns (found: seq<DbObject>, requests: seq<Request>)
    requires Ends(search)
    ensures found == Found(search)
    ensures requests == seq(FirstFinal(search) + 1, j requires 0 <= j <= FirstFinal(search) => Search(CursorBefore(search, j)))
  {
    found := [];
    var cursor: Option<string> := None;
    var k := 0;
    requests := [];
    while true
      invariant k <= FirstFinal(search)
      invariant cursor == CursorBefore(search, k)
      invariant found == AllResults(search[..k])
      invariant requests == seq(k, j requires 0 <= j < k => Search(CursorBefore(search, j)))
      decreases FirstFinal(search) - k
    {
      var response := search[k];
      requests := requests + [Search(cursor)];
      AllResultsStep(search, k);
      found := found + response.results;
      if !response.hasMore {
        break;
      }
      cursor := response.nextCursor;
      k := k + 1;
    }
  }

  /** The allow-list filter of `_get_databases`. */
  method FilterAllowed(found: seq<DbObject>) returns (filtered: seq<DbObject>)
    ensures filtered == Kept(found)
  {
    filtered := [];
    for i := 0 to |found|
      invariant filtered == Kept(found[..i])
    {
      assert found[..i + 1][..i] == found[..i];
      var db := found[i];
      var title := ExtractDatabaseTitle(db);
      if title in AllowedDatabases {
        filtered := filtered + [db];
      }
    }
    assert found[..|found|] == found;
  }

  /** The detail loop of `_get_databases`: one retrieve per kept database. */
  method RetrieveDetails(filtered: seq<DbObject>, retrieve: string -> Details) returns (dbs: seq<DetailedDb>, requests: seq<Request>)
    ensures dbs == Detailed(filtered, retrieve)
    ensures requests == seq(|filtered|, j requires 0 <= j < |filtered| => Retrieve(filtered[j].id))
  {
    dbs := [];
    requests := [];
    for i := 0 to |filtered|
      invariant dbs == Detailed(filtered[..i], retrieve)
      invariant requests == seq(i, j requires 0 <= j < i => Retrieve(filtered[j].id))
    {
      var db := filtered[i];
      var dbId := db.id;
      var title := ExtractDatabaseTitle(db);
      var details := retrieve(dbId);
      requests := requests + [Retrieve(dbId)];
      dbs := dbs + [DetailedDb(dbId, title, details)];
    }
    assert filtered[..|filtered|] == filtered;
  }

  /** `_get_databases`; `requestCount` is the counter it shows in the progress display. */
  method GetDatabases(search: seq<Response<DbObject>>, retrieve: string -> Details)
    returns (dbs: seq<DetailedDb>, requests: seq<Request>, requestCount: nat)
    requires Ends(search)
    ensures dbs == Discover(search, retrieve)
    ensures requests == DiscoveryRequests(search)
    ensures requestCount == |requests|
  {
    var found, searchRequests := SearchDatabases(search);
    var filtered := FilterAllowed(found);
    var detailRequests;
    dbs, detailRequests := RetrieveDetails(filtered, retrieve);
    requests := searchRequests + detailRequests;
    requestCount := |searchRequests| + |detailRequests|;
  }

  /** A database is kept exactly when it was found and its title is allowed. */
  lemma {:induction false} KeptMembers(dbs: seq<DbObject>, db: DbObject)
    ensures db in Kept(dbs) <==> db in dbs && IsAllowed(db)
  {
    if dbs != [] {
      KeptMembers(dbs[..|dbs| - 1], db);
      assert dbs == dbs[..|dbs| - 1] + [dbs[|dbs| - 1]];
    }
  }

  /** Every kept database has an allowed, hence ASCII, title. */
  lemma KeptAllowed(dbs: seq<DbObject>)
    ensures forall i :: 0 <= i < |Kept(dbs)| ==>
      ExtractDatabaseTitle(Kept(dbs)[i]) in AllowedDatabases && IsAscii(ExtractDatabaseTitle(Kept(dbs)[i]))
  {
    var kept := Kept(dbs);
    forall i | 0 <= i < |kept| ensures ExtractDatabaseTitle(kept[i]) in AllowedDatabases && IsAscii(ExtractDatabaseTitle(kept[i])) {
      KeptMembers(dbs, kept[i]);
      AllowedAscii(ExtractDatabaseTitle(kept[i]));
    }
  }

  /** Filtering keeps search order: the kept databases of two concatenated result lists are those of each, one after the other. */
  lemma {:induction false} KeptAppend(a: seq<DbObject>, b: seq<DbObject>)
    ensures Kept(a + b) == Kept(a) + Kept(b)
    decreases |b|
  {
    if b == [] {
      assert a + b == a;
    } else {
      assert (a + b)[..|a + b| - 1] == a + b[..|b| - 1];
      KeptAppend(a, b[..|b| - 1]);
    }
  }

  lemma {:induction false} KeptBound(dbs: seq<DbObject>)
    ensures |Kept(dbs)| <= |dbs|
  {
    if dbs != [] {
      KeptBound(dbs[..|dbs| - 1]);
    }
  }

  /** Every allowed title is plain ASCII, so the sanitiser's model applies to it. */
  lemma AllowedAscii(t: string)
    requires t in AllowedDatabases
    ensures IsAscii(t)
  {
  }

  /** Each discovered database is a search result, in search order, under
      its own title; there are no more of them than search results. */
  lemma DiscoverSpec(search: seq<Response<DbObject>>, retrieve: string -> Details)
    requires Ends(search)
    ensures var dbs := Discover(search, retrieve);
      |dbs| <= TotalResults(Consumed(search))
      && forall i :: 0 <= i < |dbs| ==>
        exists db :: db in Found(search) && db.id == dbs[i].id && ExtractDatabaseTitle(db) == dbs[i].title
  {
    var kept := Kept(Found(search));
    var dbs := Discover(search, retrieve);
    KeptBound(Found(search));
    AllResultsLength(Consumed(search));
    forall i | 0 <= i < |dbs|
      ensures exists db :: db in Found(search) && db.id == dbs[i].id && ExtractDatabaseTitle(db) == dbs[i].title
    {
      KeptMembers(Found(search), kept[i]);
      assert kept[i] in Found(search);
    }
  }

  /** A database without a title is listed as `Untitled_…`, which is never on the allow-list. */
  lemma UntitledNeverKept(db: DbObject)
    requires db.title.None? || db.title.value == []
    ensures !IsAllowed(db)
  {
    UntitledFallback(db);
    var t := ExtractDatabaseTitle(db);
    assert t[0] == UntitledPrefix[0] == 'U';
    assert forall a :: a in AllowedDatabases ==> |a| > 0 && a[0] != 'U';
  }
}
