/** The match cache: the `tmdb_cache` row entity (TmdbCache) and its data access
    object (TmdbCacheDao). The table is a sequence of rows kept in ascending primary
    key order, the order in which SQLite's index on `filename_hash` visits rows that
    share a hash; the next auto-generated key is the largest key ever stored plus one,
    as for an AUTOINCREMENT key. */
module Cache {
  import opened Wrappers

  /** The values of one `tmdb_cache` row: `id`, `filename_hash`, `tmdb_id`,
      `content_type`, `matched_title`, `match_score` and `timestamp`. */
  datatype CacheRow = CacheRow(id: int, filenameHash: string, tmdbId: int, contentType: string,
                               matchedTitle: string, matchScore: real, timestamp: int)

  /** TmdbCache: a row being built, one field per column, each set in place. String
      fields start empty where the Java object starts with null. */
  class TmdbCache {
    var id: int
    var filenameHash: string
    var tmdbId: int
    var contentType: string
    var matchedTitle: string
    var matchScore: real
    var timestamp: int

    /** The row these fields describe. */
    function Row(): CacheRow
      reads this
    {
      CacheRow(id, filenameHash, tmdbId, contentType, matchedTitle, matchScore, timestamp)
    }

    constructor()
      ensures Row() == CacheRow(0, "", 0, "", "", 0.0, 0)
    {
      id, filenameHash, tmdbId, contentType := 0, "", 0, "";
      matchedTitle, matchScore, timestamp := "", 0.0, 0;
    }

    function GetId(): int reads this { id }
    function GetFilenameHash(): string reads this { filenameHash }
    function GetTmdbId(): int reads this { tmdbId }
    function GetContentType(): string reads this { contentType }
    function GetMatchedTitle(): string reads this { matchedTitle }
    function GetMatchScore(): real reads this { matchScore }
    function GetTimestamp(): int reads this { timestamp }

    method SetId(v: int)
      modifies this
      ensures GetId() == v
      ensures Row() == old(Row()).(id := v)
    {
      id := v;
    }

    method SetFilenameHash(v: string)
      modifies this
      ensures GetFilenameHash() == v
      ensures Row() == old(Row()).(filenameHash := v)
    {
      filenameHash := v;
    }

    method SetTmdbId(v: int)
      modifies this
      ensures GetTmdbId() == v
      ensures Row() == old(Row()).(tmdbId := v)
    {
      tmdbId := v;
    }

    method SetContentType(v: string)
      modifies this
      ensures GetContentType() == v
      ensures Row() == old(Row()).(contentType := v)
    {
      contentType := v;
    }

    method SetMatchedTitle(v: string)
      modifies this
      ensures GetMatchedTitle() == v
      ensures Row() == old(Row()).(matchedTitle := v)
    {
      matchedTitle := v;
    }

    method SetMatchScore(v: real)
      modifies this
      ensures GetMatchScore() == v
      ensures Row() == old(Row()).(matchScore := v)
    {
      matchScore := v;
    }

    method SetTimestamp(v: int)
      modifies this
      ensures GetTimestamp() == v
      ensures Row() == old(Row()).(timestamp := v)
    {
      timestamp := v;
    }
  }

  // ---------------------------------------------------------------------
  // The table, as values
  // ---------------------------------------------------------------------

  /** Primary keys strictly ascend along the table, so no key appears twice. */
  predicate Ordered(rows: seq<CacheRow>) {
    forall i, j :: 0 <= i < j < |rows| ==> rows[i].id < rows[j].id
  }

  /** The row with primary key `id`, if any. */
  predicate HasId(rows: seq<CacheRow>, id: int) {
    exists k :: 0 <= k < |rows| && rows[k].id == id
  }

  /** A row stored under its primary key: it replaces the row holding that key, or is
      placed where the key order puts it. */
  function Put(rows: seq<CacheRow>, e: CacheRow): (r: seq<CacheRow>)
    requires Ordered(rows)
    ensures Ordered(r)
    ensures e in r
    ensures forall x :: x in r ==> x == e || (x in rows && x.id != e.id)
    ensures forall x :: x in rows && x.id != e.id ==> x in r
  {
    if rows == [] then [e]
    else if rows[0].id == e.id then [e] + rows[1..]
    else if rows[0].id > e.id then [e] + rows
    else [rows[0]] + Put(rows[1..], e)
  }

  /** `SELECT * FROM tmdb_cache WHERE filename_hash = h LIMIT 1`: the first row with
      that hash in key order. */
  function Lookup(rows: seq<CacheRow>, h: string): (r: Option<CacheRow>)
    ensures r.None? <==> forall x :: x in rows ==> x.filenameHash != h
    ensures r.Some? ==> r.value in rows && r.value.filenameHash == h
  {
    if rows == [] then None
    else if rows[0].filenameHash == h then Some(rows[0])
    else Lookup(rows[1..], h)
  }

  /** In an ordered table, the row a lookup returns has the smallest key among the
      rows with that hash. */
  lemma {:induction false} LookupSmallestKey(rows: seq<CacheRow>, h: string)
    requires Ordered(rows)
    ensures Lookup(rows, h).Some? ==>
      forall x :: x in rows && x.filenameHash == h ==> Lookup(rows, h).value.id <= x.id
  {
    if rows != [] && rows[0].filenameHash != h {
      LookupSmallestKey(rows[1..], h);
      assert forall x :: x in rows && x != rows[0] ==> x in rows[1..];
    }
  }

  /** `DELETE FROM tmdb_cache WHERE timestamp < t`: the rows that stay, in order. */
  function Kept(rows: seq<CacheRow>, t: int): (r: seq<CacheRow>)
    ensures forall x :: x in r <==> x in rows && x.timestamp >= t
    ensures |r| <= |rows|
  {
    if rows == [] then []
    else if rows[0].timestamp < t then Kept(rows[1..], t)
    else [rows[0]] + Kept(rows[1..], t)
  }

  /** Deleting keeps the remaining rows in key order. */
  lemma {:induction false} KeptOrdered(rows: seq<CacheRow>, t: int)
    requires Ordered(rows)
    ensures Ordered(Kept(rows, t))
  {
    if rows != [] {
      KeptOrdered(rows[1..], t);
      var rest := Kept(rows[1..], t);
      forall x | x in rest
        ensures rows[0].id < x.id
      {
        var k :| 0 <= k < |rows[1..]| && rows[1..][k] == x;
        assert rows[k + 1] == x;
      }
    }
  }

  /** Deleting with the same cut-off twice changes nothing the second time. */
  lemma {:induction false} KeptIdempotent(rows: seq<CacheRow>, t: int)
    ensures Kept(Kept(rows, t), t) == Kept(rows, t)
  {
    if rows != [] {
      KeptIdempotent(rows[1..], t);
    }
  }

  // ---------------------------------------------------------------------
  // TmdbCacheDao
  // ---------------------------------------------------------------------

  /** TmdbCacheDao over one in-memory table. */
  class TmdbCacheDao {
    var rows: seq<CacheRow>
    /** The key the next row inserted with id 0 receives. */
    var nextId: int

    ghost predicate Valid()
      reads this
    {
      Ordered(rows) && 1 <= nextId && forall x :: x in rows ==> x.id < nextId
    }

    constructor()
      ensures Valid() && rows == [] && nextId == 1
    {
      rows, nextId := [], 1;
    }

    /** insert with REPLACE on conflict: a row whose id is 0 gets the next key; a row
        is then stored under its key, replacing only a row with the same key. */
    method Insert(e: CacheRow)
      requires Valid()
      modifies this
      ensures Valid()
      ensures var stored := if e.id == 0 then e.(id := old(nextId)) else e;
        && rows == Put(old(rows), stored)
        && nextId == (if stored.id >= old(nextId) then stored.id + 1 else old(nextId))
    {
      var stored := if e.id == 0 then e.(id := nextId) else e;
      rows := Put(rows, stored);
      if stored.id >= nextId {
        nextId := stored.id + 1;
      }
    }

    /** getByFilenameHash. */
    method GetByFilenameHash(h: string) returns (r: Option<CacheRow>)
      ensures r == Lookup(rows, h)
    {
      r := Lookup(rows, h);
    }

    /** deleteOlderThan. */
    method DeleteOlderThan(t: int)
      requires Valid()
      modifies this
      ensures Valid()
      ensures rows == Kept(old(rows), t) && nextId == old(nextId)
    {
      KeptOrdered(rows, t);
      rows := Kept(rows, t);
    }
  }

  /** What insert promises: the stored row is found by its hash afterwards, rows with
      other keys are untouched, and the only row removed is one with the same key. */
  lemma InsertProperties(rows: seq<CacheRow>, stored: CacheRow)
    requires Ordered(rows)
    ensures Lookup(Put(rows, stored), stored.filenameHash).Some?
    ensures forall x :: x in rows && x.id != stored.id ==> x in Put(rows, stored)
    ensures forall x :: x in rows && x !in Put(rows, stored) ==> x.id == stored.id
  {
  }

  /** A row saved without a key always adds a row, even when its hash is already
      stored: the hash is not a unique key. */
  lemma InsertWithoutKeyAdds(rows: seq<CacheRow>, nextId: int, e: CacheRow)
    requires Ordered(rows) && forall x :: x in rows ==> x.id < nextId
    ensures forall x :: x in rows ==> x in Put(rows, e.(id := nextId))
    ensures |Put(rows, e.(id := nextId))| == |rows| + 1
  {
    PutFreshLength(rows, e.(id := nextId));
  }

  lemma {:induction false} PutFreshLength(rows: seq<CacheRow>, e: CacheRow)
    requires Ordered(rows) && forall x :: x in rows ==> x.id < e.id
    ensures |Put(rows, e)| == |rows| + 1
  {
    if rows != [] {
      assert rows[0] in rows;
      assert forall x :: x in rows[1..] ==> x in rows;
      PutFreshLength(rows[1..], e);
    }
  }

  /** What deleteOlderThan promises: afterwards no row is older than the cut-off,
      every row at or after the cut-off stays, and a second call changes nothing. */
  lemma DeleteProperties(rows: seq<CacheRow>, t: int)
    ensures forall x :: x in Kept(rows, t) ==> x.timestamp >= t
    ensures forall x :: x in rows && x.timestamp >= t ==> x in Kept(rows, t)
    ensures forall x :: x in rows && x !in Kept(rows, t) ==> x.timestamp < t
    ensures Kept(Kept(rows, t), t) == Kept(rows, t)
  {
    KeptIdempotent(rows, t);
  }
}
