/** The visibility filter of the record list (`filterRecord`): a record is
 *  shown when the search term occurs in the lower-cased text of one of the
 *  values of the record or of its artist.
 */
module Filter {
  import opened Text
  import opened Catalog

  /** Reference definition: some value's lower-cased text contains `q`. */
  ghost predicate Matches(vs: seq<JsValue>, q: string) {
    exists i :: 0 <= i < |vs| && Contains(Lower(ToText(vs[i])), q)
  }

  /** `allValues.some(value => value.toString().toLowerCase().includes(q))`. */
  function SomeValueContains(vs: seq<JsValue>, q: string): (b: bool)
    ensures b == Matches(vs, q)
  {
    if vs == [] then false
    else
      var rest := SomeValueContains(vs[1..], q);
      assert forall i :: 1 <= i < |vs| ==> vs[1..][i - 1] == vs[i];
      Contains(Lower(ToText(vs[0])), q) || rest
  }

  /** The result of filtering one record; `copied` says that a new record
   *  object was made, which is what makes the list re-render it. */
  datatype Filtered = Filtered(record: Record, copied: bool)

  /** `filterRecord` exactly as written: the values tested are
   *  `Object.values(record)`, which include the record's current `show`
   *  flag, followed by those of the artist. */
  function FilterRecordAsWritten(r: Record, a: Option<Artist>, q: string): (f: Filtered)
    ensures f.record.show == Matches(RecordValues(r) + ArtistValues(a), q)
    ensures f.record == r.(show := f.record.show)
    ensures f.copied <==> f.record.show != r.show
  {
    var show := SomeValueContains(RecordValues(r) + ArtistValues(a), q);
    if r.show == show then Filtered(r, false) else Filtered(r.(show := show), true)
  }

  /** `filterRecord` as its authors meant it: the values tested are the
   *  record's data fields (everything but `show`) and the artist's fields.
   *  Only `show` can differ from the input, and the input record itself is
   *  returned when `show` does not change. */
  function FilterRecord(r: Record, a: Option<Artist>, q: string): (f: Filtered)
    ensures f.record.show == Matches(DataValues(r) + ArtistValues(a), q)
    ensures f.record == r.(show := f.record.show)
    ensures f.copied <==> f.record.show != r.show
    ensures !f.copied ==> f.record == r
  {
    var show := SomeValueContains(DataValues(r) + ArtistValues(a), q);
    if r.show == show then Filtered(r, false) else Filtered(r.(show := show), true)
  }

  /** The empty term is contained in every value, so it shows every record. */
  lemma EmptyTermShowsAll(r: Record, a: Option<Artist>)
    ensures FilterRecord(r, a, "").record.show
  {
    assert OccursAt(Lower(ToText(DataValues(r)[0])), "", 0);
  }

  /** Filtering a filtered record again changes nothing and copies nothing. */
  lemma FilterRecordStable(r: Record, a: Option<Artist>, q: string)
    ensures var once := FilterRecord(r, a, q).record;
      FilterRecord(once, a, q) == Filtered(once, false)
  {
    var once := FilterRecord(r, a, q).record;
    assert DataValues(once) == DataValues(r);
  }

  /** Every record of `rs` filtered against its artist in `artists`
   *  (the `prevRecords.map(... filterRecord(prevRecord, artists.find(...)))`
   *  of the search and artist-edit handlers). */
  function Refilter(rs: seq<Record>, artists: seq<Artist>, q: string): (out: seq<Record>)
    ensures |out| == |rs|
    ensures forall i :: 0 <= i < |rs| ==> out[i] == rs[i].(show := out[i].show)
    ensures forall i :: 0 <= i < |rs| ==>
      out[i].show == Matches(DataValues(rs[i]) + ArtistValues(GetArtist(artists, rs[i].artist)), q)
  {
    seq(|rs|, i requires 0 <= i < |rs| => FilterRecord(rs[i], GetArtist(artists, rs[i].artist), q).record)
  }

  /** Searching twice with the same term gives what searching once gave, and the
   *  second pass copies no record. */
  lemma {:induction false} RefilterIdempotent(rs: seq<Record>, artists: seq<Artist>, q: string)
    ensures Refilter(Refilter(rs, artists, q), artists, q) == Refilter(rs, artists, q)
    ensures var once := Refilter(rs, artists, q);
      forall i :: 0 <= i < |once| ==> !FilterRecord(once[i], GetArtist(artists, once[i].artist), q).copied
  {
    var once := Refilter(rs, artists, q);
    forall i | 0 <= i < |rs|
      ensures FilterRecord(once[i], GetArtist(artists, once[i].artist), q) == Filtered(once[i], false)
    {
      FilterRecordStable(rs[i], GetArtist(artists, rs[i].artist), q);
    }
  }

  /** A search for a query that is empty or all spaces shows every record:
   *  such a query normalises to the empty term. */
  lemma RefilterEmptyShowsAll(rs: seq<Record>, artists: seq<Artist>, query: string)
    ensures (forall i :: 0 <= i < |query| ==> IsSpace(query[i])) ==>
      forall i :: 0 <= i < |rs| ==> Refilter(rs, artists, Normalize(query))[i].show
  {
    NormalizeBlank(query);
    forall i | 0 <= i < |rs| && Normalize(query) == "" ensures Refilter(rs, artists, Normalize(query))[i].show {
      EmptyTermShowsAll(rs[i], GetArtist(artists, rs[i].artist));
    }
  }

  /** The search and artist-edit pass as written, with `FilterRecordAsWritten`. */
  function RefilterAsWritten(rs: seq<Record>, artists: seq<Artist>, q: string): (out: seq<Record>)
    ensures |out| == |rs|
    ensures forall i :: 0 <= i < |rs| ==> out[i] == rs[i].(show := out[i].show)
    ensures forall i :: 0 <= i < |rs| ==>
      out[i].show == Matches(RecordValues(rs[i]) + ArtistValues(GetArtist(artists, rs[i].artist)), q)
  {
    seq(|rs|, i requires 0 <= i < |rs| => FilterRecordAsWritten(rs[i], GetArtist(artists, rs[i].artist), q).record)
  }

  /** A term longer than a text does not occur in it. */
  lemma ShorterTextMisses(t: string, q: string)
    requires |t| < |q|
    ensures !Contains(t, q)
  {
  }

  lemma FalseContainsFals()
    ensures Contains(Lower(ToText(Bool(false))), "fals")
  {
    assert Lower("false") == "false";
    assert OccursAt("false", "fals", 0);
  }

  lemma TrueMissesFals()
    ensures !Contains(Lower(ToText(Bool(true))), "fals")
  {
    var t := "true";
    assert Lower(t) == t;
    assert t[..4][0] == 't';
    assert t[1..] == "rue";
    ShorterTextMisses("rue", "fals");
  }

  /** The first search for "fals" shows the hidden record: its own "false" matches. */
  lemma FirstSearchShows()
    ensures RefilterAsWritten([Record(1, "a", Num(1), "b", 0, false)], [Artist(0, "c")], "fals")
      == [Record(1, "a", Num(1), "b", 0, true)]
  {
    var r := Record(1, "a", Num(1), "b", 0, false);
    var a := Artist(0, "c");
    assert GetArtist([a], 0) == Some(a);
    var before := RecordValues(r) + ArtistValues(Some(a));
    assert before[5] == Bool(false);
    FalseContainsFals();
    assert Matches(before, "fals");
  }

  /** Searching for "fals" again hides it: no value of the shown record matches. */
  lemma SecondSearchHides()
    ensures !RefilterAsWritten([Record(1, "a", Num(1), "b", 0, true)], [Artist(0, "c")], "fals")[0].show
  {
    var shown := Record(1, "a", Num(1), "b", 0, true);
    var a := Artist(0, "c");
    assert GetArtist([a], 0) == Some(a);
    var after := RecordValues(shown) + ArtistValues(Some(a));
    assert after == [Str("a"), Num(1), Str("b"), Num(0), Num(1), Bool(true), Str("c"), Num(0)];
    forall i | 0 <= i < |after| ensures !Contains(Lower(ToText(after[i])), "fals") {
      if i == 5 {
        TrueMissesFals();
      } else {
        assert Decimal(0) == "0" && Decimal(1) == "1";
        ShorterTextMisses(Lower(ToText(after[i])), "fals");
      }
    }
  }

  /** As written, searching twice for "fals" does not give what searching once
   *  gave: the hidden record's own "false" matches the first time, and once
   *  shown its "true" no longer matches. */
  lemma RefilterAsWrittenNotIdempotent()
    ensures var rs := [Record(1, "a", Num(1), "b", 0, false)];
      var artists := [Artist(0, "c")];
      RefilterAsWritten(RefilterAsWritten(rs, artists, "fals"), artists, "fals")
        != RefilterAsWritten(rs, artists, "fals")
  {
    FirstSearchShows();
    SecondSearchHides();
  }
}
