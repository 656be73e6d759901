/** The collection store of the record list (src/pages/records/Records.js):
 *  the ordered records, the artists they refer to, the pagination cursor and
 *  the search term, and the operations that load a page, apply an edit and
 *  apply a search.
 */
module Records {
  import opened Text
  import opened Catalog
  import opened Filter

  /** The cursor the store starts from: the first page of the catalog. */
  const FirstPageUrl: string :=
    "https://gist.githubusercontent.com/seanders/df38a92ffc4e8c56962e51b6e96e188f/raw/b032669142b7b57ede3496dffee5b7c16b8071e1/page1.json"

  /** The message shown when a page cannot be fetched. */
  const LoadError: string := "Couldn't load records!"

  // ---------------------------------------------------------------------
  // Normalising a page

  /** A page record as stored before any filtering: the embedded artist
   *  replaced by its id, the given id, and shown. */
  function NewRecord(raw: RawRecord, id: nat): Record {
    Record(id, raw.albumTitle, raw.year, raw.condition, raw.artist.id, true)
  }

  /** One page record as `convertRecords` builds it: with an active term it is
   *  filtered, by `filterRecord` as written, against the artist the page
   *  embeds; the values tested include the `show: true` just set. */
  function ConvertRecordAsWritten(raw: RawRecord, id: nat, q: string): Record {
    var made := NewRecord(raw, id);
    if q != "" then FilterRecordAsWritten(made, Some(raw.artist), q).record else made
  }

  /** `convertRecords` as written: the records of a page, in page order, with
   *  the consecutive ids `startId`, `startId + 1`, ..., their artist as an id,
   *  and with an active term shown iff it matches one of their values (the
   *  `show: true` included) or the artist the page embeds, whatever the store
   *  holds for that id. */
  function ConvertRecordsAsWritten(raws: seq<RawRecord>, startId: nat, q: string): (rs: seq<Record>)
    ensures |rs| == |raws|
    ensures forall i :: 0 <= i < |raws| ==> rs[i] == NewRecord(raws[i], startId + i).(show := rs[i].show)
    ensures forall i :: 0 <= i < |raws| ==>
      rs[i].show == (q == "" || Matches(RecordValues(NewRecord(raws[i], startId + i)) + ArtistValues(Some(raws[i].artist)), q))
  {
    seq(|raws|, i requires 0 <= i < |raws| => ConvertRecordAsWritten(raws[i], startId + i, q))
  }

  /** One page record filtered against the artist the store holds for its
   *  artist id, which is the artist its row displays. */
  function ConvertRecord(raw: RawRecord, id: nat, q: string, artists: seq<Artist>): Record {
    var made := NewRecord(raw, id);
    if q != "" then FilterRecord(made, GetArtist(artists, raw.artist.id), q).record else made
  }

  /** `convertRecords` corrected: as written, except that an active term is
   *  tested, by the corrected `FilterRecord`, against the store's artist for
   *  each record's artist id. */
  function ConvertRecords(raws: seq<RawRecord>, startId: nat, q: string, artists: seq<Artist>): (rs: seq<Record>)
    ensures |rs| == |raws|
    ensures forall i :: 0 <= i < |raws| ==>
      && rs[i].id == startId + i
      && rs[i].artist == raws[i].artist.id
      && rs[i].albumTitle == raws[i].albumTitle
      && rs[i].year == raws[i].year
      && rs[i].condition == raws[i].condition
    ensures forall i :: 0 <= i < |raws| ==>
      rs[i].show == (q == "" || Matches(DataValues(rs[i]) + ArtistValues(GetArtist(artists, rs[i].artist)), q))
  {
    seq(|raws|, i requires 0 <= i < |raws| => ConvertRecord(raws[i], startId + i, q, artists))
  }

  /** Loaded records already carry the `show` that a search with the same term
   *  against the same artists gives them: searching again changes nothing. */
  lemma LoadAgreesWithSearch(raws: seq<RawRecord>, startId: nat, q: string, artists: seq<Artist>)
    ensures var rs := ConvertRecords(raws, startId, q, artists);
      Refilter(rs, artists, q) == rs
  {
    var rs := ConvertRecords(raws, startId, q, artists);
    forall i | 0 <= i < |rs| ensures Refilter(rs, artists, q)[i] == rs[i] {
      if q == "" {
        EmptyTermShowsAll(rs[i], GetArtist(artists, rs[i].artist));
      }
    }
  }

  /** The records a load appends are what `LoadAgreesWithSearch` says of them. */
  lemma AppendedAgreesWithSearch(records: seq<Record>, raws: seq<RawRecord>, startId: nat, q: string, artists: seq<Artist>)
    ensures var all := records + ConvertRecords(raws, startId, q, artists);
      Refilter(all[|records|..], artists, q) == all[|records|..]
  {
    var converted := ConvertRecords(raws, startId, q, artists);
    assert (records + converted)[|records|..] == converted;
    LoadAgreesWithSearch(raws, startId, q, artists);
  }

  /** As written, a record loaded after its artist was renamed in the store
   *  (or whose page reuses a known artist id under another name) gets a
   *  `show` that a search with the same term contradicts: filtered against
   *  the embedded artist "old", it is hidden, while a search for "new", as
   *  written or corrected, shows it through the store's artist "new". */
  lemma LoadAsWrittenDisagreesWithSearch()
    ensures var rs := ConvertRecordsAsWritten([RawRecord("a", Num(1), "b", Artist(0, "old"))], 1, "new");
      && !rs[0].show
      && RefilterAsWritten(rs, [Artist(0, "new")], "new")[0].show
      && Refilter(rs, [Artist(0, "new")], "new")[0].show
  {
    LoadedHidden();
    var rs := ConvertRecordsAsWritten([RawRecord("a", Num(1), "b", Artist(0, "old"))], 1, "new");
    SearchShows(rs[0]);
  }

  /** Filtered against the embedded artist "old", the loaded record is hidden
   *  under "new": none of its values, "true" included, contains the term. */
  lemma LoadedHidden()
    ensures !ConvertRecordsAsWritten([RawRecord("a", Num(1), "b", Artist(0, "old"))], 1, "new")[0].show
  {
    var raw := RawRecord("a", Num(1), "b", Artist(0, "old"));
    var vs := RecordValues(NewRecord(raw, 1)) + ArtistValues(Some(raw.artist));
    assert vs == [Str("a"), Num(1), Str("b"), Num(0), Num(1), Bool(true), Str("old"), Num(0)];
    forall i | 0 <= i < |vs| ensures !Contains(Lower(ToText(vs[i])), "new") {
      if i == 5 {
        TrueMissesNew();
      } else if i == 6 {
        OldMissesNew();
      } else {
        assert Decimal(0) == "0" && Decimal(1) == "1";
        ShorterTextMisses(Lower(ToText(vs[i])), "new");
      }
    }
  }

  /** A record of artist 0 is shown by a search for "new", as written or
   *  corrected, once the store's artist 0 is named "new". */
  lemma SearchShows(r: Record)
    requires r.artist == 0
    ensures RefilterAsWritten([r], [Artist(0, "new")], "new")[0].show
    ensures Refilter([r], [Artist(0, "new")], "new")[0].show
  {
    assert GetArtist([Artist(0, "new")], 0) == Some(Artist(0, "new"));
    assert Lower("new") == "new";
    assert OccursAt("new", "new", 0);
    var data := DataValues(r) + ArtistValues(Some(Artist(0, "new")));
    assert data[5] == Str("new");
    var all := RecordValues(r) + ArtistValues(Some(Artist(0, "new")));
    assert all[6] == Str("new");
  }

  lemma TrueMissesNew()
    ensures !Contains(Lower(ToText(Bool(true))), "new")
  {
    var t := "true";
    assert Lower(t) == t;
    assert t[..3][0] == 't';
    assert t[1..] == "rue";
    assert "rue"[..3][0] == 'r';
    assert "rue"[1..] == "ue";
    ShorterTextMisses("ue", "new");
  }

  lemma OldMissesNew()
    ensures !Contains(Lower("old"), "new")
  {
    assert Lower("old") == "old";
    assert "old"[..3][0] == 'o';
    assert "old"[1..] == "ld";
    ShorterTextMisses("ld", "new");
  }

  /** The embedded artists of a page, in page order. */
  function BatchArtists(raws: seq<RawRecord>): seq<Artist> {
    seq(|raws|, i requires 0 <= i < |raws| => raws[i].artist)
  }

  /** The id the next loaded record gets: one more than the last record's, or
   *  1; it exceeds the last id, and with ids 1..n it is n + 1, one more than
   *  every id. */
  function StartId(rs: seq<Record>): (id: nat)
    ensures id >= 1
    ensures rs != [] ==> id > rs[|rs| - 1].id
    ensures IdsFromOne(rs) ==> id == |rs| + 1 && forall i :: 0 <= i < |rs| ==> rs[i].id < id
  {
    if |rs| > 0 then rs[|rs| - 1].id + 1 else 1
  }

  /** The ids of `rs` are 1, 2, ..., |rs| in order. */
  ghost predicate IdsFromOne(rs: seq<Record>) {
    forall i :: 0 <= i < |rs| ==> rs[i].id == i + 1
  }

  /** Appending a loaded page keeps the ids contiguous from 1 and strictly
   *  increasing, and keeps the existing records as a prefix. */
  lemma AppendKeepsIdsFromOne(rs: seq<Record>, raws: seq<RawRecord>, q: string, artists: seq<Artist>)
    requires IdsFromOne(rs)
    ensures StartId(rs) == |rs| + 1
    ensures var all := rs + ConvertRecords(raws, StartId(rs), q, artists);
      IdsFromOne(all) && all[..|rs|] == rs
      && forall i, j :: 0 <= i < j < |all| ==> all[i].id < all[j].id
  {
  }

  // ---------------------------------------------------------------------
  // De-duplicating artists

  /** Reference definition of `getNewArtists`: the artists of `batch`, in
   *  batch order, whose id is neither in `prev` nor earlier in `batch`. */
  ghost function FirstNew(prev: seq<Artist>, batch: seq<Artist>): seq<Artist>
    decreases |batch|
  {
    if batch == [] then []
    else
      var init := batch[..|batch| - 1];
      var last := batch[|batch| - 1];
      FirstNew(prev, init) + (if HasId(prev, last.id) || HasId(init, last.id) then [] else [last])
  }

  lemma HasIdAppend(xs: seq<Artist>, ys: seq<Artist>, id: nat)
    ensures HasId(xs + ys, id) <==> HasId(xs, id) || HasId(ys, id)
  {
    if HasId(xs, id) {
      var i :| 0 <= i < |xs| && xs[i].id == id;
      assert (xs + ys)[i].id == id;
    }
    if HasId(ys, id) {
      var i :| 0 <= i < |ys| && ys[i].id == id;
      assert (xs + ys)[|xs| + i].id == id;
    }
    if HasId(xs + ys, id) {
      var i :| 0 <= i < |xs + ys| && (xs + ys)[i].id == id;
      if i >= |xs| {
        assert ys[i - |xs|].id == id;
        assert HasId(ys, id);
      } else {
        assert xs[i].id == id;
        assert HasId(xs, id);
      }
    }
  }

  /** Together with `prev`, the new artists cover exactly the ids of the batch. */
  lemma {:induction false} FirstNewCoversBatch(prev: seq<Artist>, batch: seq<Artist>, id: nat)
    ensures HasId(prev, id) || HasId(FirstNew(prev, batch), id) <==> HasId(prev, id) || HasId(batch, id)
    decreases |batch|
  {
    if batch != [] {
      var init := batch[..|batch| - 1];
      var last := batch[|batch| - 1];
      assert batch == init + [last];
      FirstNewCoversBatch(prev, init, id);
      HasIdAppend(init, [last], id);
      var tail := if HasId(prev, last.id) || HasId(init, last.id) then [] else [last];
      HasIdAppend(FirstNew(prev, init), tail, id);
      if tail == [] && last.id == id {
        FirstNewCoversBatch(prev, init, last.id);
      }
      assert HasId([last], id) <==> last.id == id;
    }
  }

  /** Every new artist comes from the batch, has an id not in `prev`, and no
   *  two new artists share an id. */
  lemma {:induction false} FirstNewFresh(prev: seq<Artist>, batch: seq<Artist>)
    ensures forall a :: a in FirstNew(prev, batch) ==> a in batch && !HasId(prev, a.id)
    ensures UniqueIds(FirstNew(prev, batch))
    decreases |batch|
  {
    if batch != [] {
      var init := batch[..|batch| - 1];
      var last := batch[|batch| - 1];
      assert batch == init + [last];
      FirstNewFresh(prev, init);
      var older := FirstNew(prev, init);
      if !(HasId(prev, last.id) || HasId(init, last.id)) {
        assert !HasId(older, last.id) by {
          FirstNewCoversBatch(prev, init, last.id);
        }
        var all := older + [last];
        forall i, j | 0 <= i < j < |all| ensures all[i].id != all[j].id {
          if j == |older| {
            assert all[i] == older[i];
          }
        }
      }
    }
  }

  /** Appending the new artists to a list without repeated ids gives a list
   *  without repeated ids, holding every id of the batch. */
  lemma AppendKeepsArtistsUnique(prev: seq<Artist>, batch: seq<Artist>)
    requires UniqueIds(prev)
    ensures UniqueIds(prev + FirstNew(prev, batch))
    ensures forall a :: a in batch ==> HasId(prev + FirstNew(prev, batch), a.id)
  {
    var added := FirstNew(prev, batch);
    FirstNewFresh(prev, batch);
    var all := prev + added;
    forall i, j | 0 <= i < j < |all| ensures all[i].id != all[j].id {
      if i < |prev| && j >= |prev| {
        assert all[j] in added;
        assert HasId(prev, all[i].id);
      }
    }
    forall a | a in batch ensures HasId(all, a.id) {
      FirstNewCoversBatch(prev, batch, a.id);
      HasIdAppend(prev, added, a.id);
    }
  }

  /** `getNewArtists`: the `forEach` loop that keeps each batch artist whose id
   *  `findIndex` finds neither in `prevArtists` nor among those kept so far. */
  method GetNewArtists(prevArtists: seq<Artist>, artistsToAdd: seq<Artist>) returns (newArtists: seq<Artist>)
    ensures newArtists == FirstNew(prevArtists, artistsToAdd)
  {
    newArtists := [];
    for i := 0 to |artistsToAdd|
      invariant newArtists == FirstNew(prevArtists, artistsToAdd[..i])
    {
      var artistToAdd := artistsToAdd[i];
      ghost var seen := artistsToAdd[..i];
      assert artistsToAdd[..i + 1] == seen + [artistToAdd];
      FirstNewCoversBatch(prevArtists, seen, artistToAdd.id);
      if IndexOfId(prevArtists, artistToAdd.id) == -1 && IndexOfId(newArtists, artistToAdd.id) == -1 {
        newArtists := newArtists + [artistToAdd];
      }
    }
    assert artistsToAdd[..|artistsToAdd|] == artistsToAdd;
  }

  /** A page never replaces an artist the store already has: every lookup of a
   *  known id gives what it gave before, so an edited artist survives loading
   *  more pages, and a later artist that reuses a known id is dropped. */
  lemma {:induction false} LoadKeepsKnownArtists(prev: seq<Artist>, batch: seq<Artist>, id: nat)
    requires HasId(prev, id)
    ensures GetArtist(prev + FirstNew(prev, batch), id) == GetArtist(prev, id)
  {
    var all := prev + FirstNew(prev, batch);
    var k := IndexOfId(prev, id);
    assert FirstWithId(all, id, k);
    assert IndexOfId(all, id) == k;
    assert all[k] == prev[k];
  }

  // ---------------------------------------------------------------------
  // Edits

  /** The record list after `updateRecord(edited)`: the record with the
   *  edited id is replaced by the edited record; with an active term its
   *  `show` is recomputed against `{}` in place of its artist. */
  function UpdatedRecords(rs: seq<Record>, edited: Record, q: string): (out: seq<Record>)
    ensures |out| == |rs|
    ensures forall i :: 0 <= i < |rs| && rs[i].id != edited.id ==> out[i] == rs[i]
    ensures forall i :: 0 <= i < |rs| && rs[i].id == edited.id ==>
      out[i] == edited.(show := out[i].show)
      && out[i].show == (if q == "" then edited.show else Matches(DataValues(edited), q))
    ensures (forall i :: 0 <= i < |rs| ==> rs[i].id != edited.id) ==> out == rs
  {
    assert DataValues(edited) + ArtistValues(None) == DataValues(edited);
    seq(|rs|, i requires 0 <= i < |rs| =>
      if rs[i].id == edited.id then
        (if q != "" then FilterRecord(edited, None, q).record else edited)
      else rs[i])
  }

  /** The artist list after `updateArtist(edited)`: every artist with the
   *  edited id is replaced by the edited artist. */
  function ReplaceArtist(artists: seq<Artist>, edited: Artist): (out: seq<Artist>)
    ensures |out| == |artists|
    ensures forall i :: 0 <= i < |artists| ==> out[i].id == artists[i].id
  {
    seq(|artists|, i requires 0 <= i < |artists| => if artists[i].id == edited.id then edited else artists[i])
  }

  /** After replacing, looking up the edited id gives the edited artist,
   *  every other lookup is as before, and ids stay unique. */
  lemma ReplaceArtistLookup(artists: seq<Artist>, edited: Artist, id: nat)
    requires UniqueIds(artists)
    ensures UniqueIds(ReplaceArtist(artists, edited))
    ensures id == edited.id && HasId(artists, id) ==> GetArtist(ReplaceArtist(artists, edited), id) == Some(edited)
    ensures id != edited.id ==> GetArtist(ReplaceArtist(artists, edited), id) == GetArtist(artists, id)
  {
    var out := ReplaceArtist(artists, edited);
    assert forall k :: 0 <= k < |artists| ==> (FirstWithId(out, id, k) <==> FirstWithId(artists, id, k));
    if HasId(artists, id) {
      var k := IndexOfId(artists, id);
      assert FirstWithId(out, id, k);
    }
  }

  // ---------------------------------------------------------------------
  // The store

  /** What every store state satisfies: ids run 1, 2, ... in load order,
   *  artist ids are unique, and every record's artist is in the artist list. */
  ghost predicate StoreInvariant(records: seq<Record>, artists: seq<Artist>) {
    && IdsFromOne(records)
    && UniqueIds(artists)
    && (forall i :: 0 <= i < |records| ==> HasId(artists, records[i].artist))
  }

  /** Loading a page keeps the store invariant. */
  lemma LoadKeepsInvariant(records: seq<Record>, artists: seq<Artist>, raws: seq<RawRecord>, q: string)
    requires StoreInvariant(records, artists)
    ensures var merged := artists + FirstNew(artists, BatchArtists(raws));
      StoreInvariant(records + ConvertRecords(raws, StartId(records), q, merged), merged)
  {
    var batch := BatchArtists(raws);
    var added := FirstNew(artists, batch);
    AppendKeepsIdsFromOne(records, raws, q, artists + added);
    var converted := ConvertRecords(raws, StartId(records), q, artists + added);
    AppendKeepsArtistsUnique(artists, batch);
    var all := records + converted;
    forall i | 0 <= i < |all| ensures HasId(artists + added, all[i].artist) {
      if i < |records| {
        HasIdAppend(artists, added, records[i].artist);
      } else {
        assert batch[i - |records|] in batch;
      }
    }
  }

  /** An edit of a record whose artist is known keeps the store invariant. */
  lemma UpdateRecordKeepsInvariant(records: seq<Record>, artists: seq<Artist>, edited: Record, q: string)
    requires StoreInvariant(records, artists)
    requires HasId(artists, edited.artist)
    ensures StoreInvariant(UpdatedRecords(records, edited, q), artists)
  {
  }

  /** An edit of an artist keeps the store invariant, filtered or not. */
  lemma UpdateArtistKeepsInvariant(records: seq<Record>, artists: seq<Artist>, edited: Artist, q: string)
    requires StoreInvariant(records, artists)
    ensures StoreInvariant(records, ReplaceArtist(artists, edited))
    ensures StoreInvariant(Refilter(records, ReplaceArtist(artists, edited), q), ReplaceArtist(artists, edited))
  {
    var out := ReplaceArtist(artists, edited);
    ReplaceArtistLookup(artists, edited, 0);
    forall i | 0 <= i < |records| ensures HasId(out, records[i].artist) {
      var k :| 0 <= k < |artists| && artists[k].id == records[i].artist;
      assert out[k].id == records[i].artist;
    }
  }

  /** A search keeps the store invariant. */
  lemma SearchKeepsInvariant(records: seq<Record>, artists: seq<Artist>, q: string)
    requires StoreInvariant(records, artists)
    ensures StoreInvariant(Refilter(records, artists, q), artists)
  {
  }

  /** While no search term is active, every record is shown. */
  ghost predicate ShownWhileNoTerm(records: seq<Record>, q: string) {
    q == "" ==> forall i :: 0 <= i < |records| ==> records[i].show
  }

  /** Loading a page keeps every record shown while no term is active: the
   *  new records are created shown and are not filtered. */
  lemma LoadKeepsShown(records: seq<Record>, raws: seq<RawRecord>, startId: nat, q: string, artists: seq<Artist>)
    requires ShownWhileNoTerm(records, q)
    ensures ShownWhileNoTerm(records + ConvertRecords(raws, startId, q, artists), q)
  {
    var all := records + ConvertRecords(raws, startId, q, artists);
    if q == "" {
      forall i | 0 <= i < |all| ensures all[i].show {
        if i >= |records| {
          assert all[i] == ConvertRecords(raws, startId, q, artists)[i - |records|];
        }
      }
    }
  }

  /** An edit of a shown record keeps every record shown while no term is
   *  active: without a term the edited record is stored as it is. */
  lemma UpdateRecordKeepsShown(records: seq<Record>, edited: Record, q: string)
    requires ShownWhileNoTerm(records, q)
    requires edited.show
    ensures ShownWhileNoTerm(UpdatedRecords(records, edited, q), q)
  {
  }

  /** A search whose query normalises to the empty term shows every record. */
  lemma SearchKeepsShown(records: seq<Record>, artists: seq<Artist>, query: string)
    ensures ShownWhileNoTerm(Refilter(records, artists, Normalize(query)), Normalize(query))
  {
    NormalizeBlank(query);
    RefilterEmptyShowsAll(records, artists, query);
  }

  /** A search keeps the store invariant and, when the query is blank,
   *  shows every record. */
  lemma SearchStep(records: seq<Record>, artists: seq<Artist>, query: string)
    requires StoreInvariant(records, artists)
    ensures var q := Normalize(query);
      StoreInvariant(Refilter(records, artists, q), artists)
      && ShownWhileNoTerm(Refilter(records, artists, q), q)
  {
    SearchKeepsInvariant(records, artists, Normalize(query));
    SearchKeepsShown(records, artists, query);
  }

  class Store {
    var records: seq<Record>
    var artists: seq<Artist>
    var nextPage: Option<string>
    var searchQuery: string
    var error: Option<string>

    ghost predicate Valid()
      reads this
    {
      StoreInvariant(records, artists) && ShownWhileNoTerm(records, searchQuery)
    }

    constructor ()
      ensures Valid()
      ensures records == [] && artists == [] && nextPage == Some(FirstPageUrl)
      ensures searchQuery == "" && error == None
    {
      records := [];
      artists := [];
      nextPage := Some(FirstPageUrl);
      searchQuery := "";
      error := None;
    }

    /** "Show More" is offered while the cursor is a non-empty string and
     *  some record is loaded. */
    predicate ShowMoreVisible(): (visible: bool)
      reads this
      ensures visible ==> nextPage.Some? && nextPage.value != "" && records != []
      ensures nextPage.Some? && nextPage.value != "" && records != [] ==> visible
    {
      nextPage.Some? && nextPage.value != "" && |records| > 0
    }

    /** `loadNextRecords`, given the outcome of fetching the page at
     *  `nextPage`. On success the page is appended (`AppendPage`); on
     *  failure only the error is set. */
    method LoadNextRecords(fetch: Fetch)
      requires Valid()
      modifies this
      ensures Valid()
      ensures searchQuery == old(searchQuery)
      ensures fetch.Failed? ==>
        && records == old(records) && artists == old(artists) && nextPage == old(nextPage)
        && error == Some(LoadError)
      ensures fetch.Loaded? ==>
        artists == old(artists) + FirstNew(old(artists), BatchArtists(fetch.page.results))
      ensures fetch.Loaded? ==>
        records == old(records) + ConvertRecords(fetch.page.results, StartId(old(records)), searchQuery, artists)
      ensures fetch.Loaded? ==>
        Refilter(records[|old(records)|..], artists, searchQuery) == records[|old(records)|..]
      ensures fetch.Loaded? ==> nextPage == fetch.page.nextPage && error == None
    {
      error := None;
      match fetch
      case Failed =>
        error := Some(LoadError);
      case Loaded(page) =>
        AppendPage(page);
    }

    /** The success handler of `loadNextRecords`: the page's unseen artists
     *  are appended, its records are appended with the next ids and filtered
     *  against the merged artists (the corrected `ConvertRecords`), and the
     *  cursor moves on. */
    method AppendPage(page: Page)
      requires Valid()
      modifies this`records, this`artists, this`nextPage
      ensures Valid()
      ensures artists == old(artists) + FirstNew(old(artists), BatchArtists(page.results))
      ensures records == old(records) + ConvertRecords(page.results, StartId(old(records)), searchQuery, artists)
      ensures Refilter(records[|old(records)|..], artists, searchQuery) == records[|old(records)|..]
      ensures nextPage == page.nextPage
    {
      var startId := StartId(records);
      LoadKeepsInvariant(records, artists, page.results, searchQuery);
      var added := GetNewArtists(artists, BatchArtists(page.results));
      var merged := artists + added;
      var converted := ConvertRecords(page.results, startId, searchQuery, merged);
      AppendedAgreesWithSearch(records, page.results, startId, searchQuery, merged);
      LoadKeepsShown(records, page.results, startId, searchQuery, merged);
      records := records + converted;
      artists := merged;
      nextPage := page.nextPage;
    }

    /** `updateRecord`: replaces the record with the edited id and, with an
     *  active term, filters it on its own fields. */
    method UpdateRecord(editedRecord: Record)
      requires Valid()
      requires HasId(artists, editedRecord.artist)
      requires editedRecord.show
      modifies this
      ensures Valid()
      ensures records == UpdatedRecords(old(records), editedRecord, searchQuery)
      ensures artists == old(artists) && nextPage == old(nextPage)
      ensures searchQuery == old(searchQuery) && error == old(error)
    {
      UpdateRecordKeepsInvariant(records, artists, editedRecord, searchQuery);
      UpdateRecordKeepsShown(records, editedRecord, searchQuery);
      records := UpdatedRecords(records, editedRecord, searchQuery);
    }

    /** `updateArtist`: replaces the artist with the edited id and, with an
     *  active term, filters every record again. */
    method UpdateArtist(editedArtist: Artist)
      requires Valid()
      modifies this
      ensures Valid()
      ensures artists == ReplaceArtist(old(artists), editedArtist)
      ensures records == if searchQuery != "" then Refilter(old(records), artists, searchQuery) else old(records)
      ensures nextPage == old(nextPage) && searchQuery == old(searchQuery) && error == old(error)
    {
      UpdateArtistKeepsInvariant(records, artists, editedArtist, searchQuery);
      var editedArtists := ReplaceArtist(artists, editedArtist);
      artists := editedArtists;
      if searchQuery != "" {
        records := Refilter(records, editedArtists, searchQuery);
      }
    }

    /** `handleSearched`: stores the trimmed, lower-cased term and filters
     *  every record against its artist. */
    method HandleSearched(query: string)
      requires Valid()
      modifies this`searchQuery, this`records
      ensures Valid()
      ensures searchQuery == Normalize(query)
      ensures records == Refilter(old(records), artists, searchQuery)
    {
      SearchStep(records, artists, query);
      records := Refilter(records, artists, Normalize(query));
      searchQuery := Normalize(query);
    }
  }
}
