/** The entities of the record catalog, as the client holds them, and the
 *  values `Object.values` yields for them.
 */
module Catalog {
  import opened Text

  datatype Option<+T> = None | Some(value: T)

  /** A field value as JavaScript holds it: a string, a non-negative number, or a boolean. */
  datatype JsValue = Str(s: string) | Num(n: nat) | Bool(b: bool)

  /** `value.toString()`: a string is itself, a number is written as decimal
   *  digits that read back as the number, a boolean as "true" or "false". */
  function ToText(v: JsValue): (t: string)
    ensures v.Str? ==> t == v.s
    ensures v.Num? ==> t != [] && (forall i :: 0 <= i < |t| ==> IsDigit(t[i])) && ParseDecimal(t) == v.n
    ensures v.Bool? ==> (t == "true" <==> v.b) && (t == "false" <==> !v.b)
  {
    match v
    case Str(s) => s
    case Num(n) => DecimalRoundTrip(n); Decimal(n)
    case Bool(b) => if b then "true" else "false"
  }

  /** `{ id, name }` as the page embeds it and the store keeps it. */
  datatype Artist = Artist(id: nat, name: string)

  /** A stored record: the page's fields, its own id, a reference to its artist
   *  by id, and whether it is shown. The year arrives as a number and becomes
   *  text once it is edited in a form field. */
  datatype Record = Record(
    id: nat,
    albumTitle: string,
    year: JsValue,
    condition: string,
    artist: nat,
    show: bool)

  /** A record as a fetched page carries it, with its artist embedded. */
  datatype RawRecord = RawRecord(
    albumTitle: string,
    year: JsValue,
    condition: string,
    artist: Artist)

  /** A fetched page: its results and the cursor of the page after it (None for `null`). */
  datatype Page = Page(results: seq<RawRecord>, nextPage: Option<string>)

  /** The outcome of one fetch of the page at the current cursor. */
  datatype Fetch = Loaded(page: Page) | Failed

  /** `Object.values(record)`: every own field of a stored record, `show` included. */
  function RecordValues(r: Record): (vs: seq<JsValue>)
    ensures forall v :: v in vs <==> v in DataValues(r) || v == Bool(r.show)
  {
    DataValues(r) + [Bool(r.show)]
  }

  /** The record's data fields: every own field except the `show` flag. */
  function DataValues(r: Record): (vs: seq<JsValue>)
    ensures Str(r.albumTitle) in vs && r.year in vs && Str(r.condition) in vs
    ensures Num(r.artist) in vs && Num(r.id) in vs
    ensures forall v :: v in vs ==> !v.Bool? || v == r.year
  {
    [Str(r.albumTitle), r.year, Str(r.condition), Num(r.artist), Num(r.id)]
  }

  /** `Object.values(artist)`; `{}` (None) has no values. */
  function ArtistValues(a: Option<Artist>): (vs: seq<JsValue>)
    ensures a.None? ==> vs == []
    ensures a.Some? ==> Str(a.value.name) in vs && Num(a.value.id) in vs && |vs| == 2
  {
    match a
    case None => []
    case Some(x) => [Str(x.name), Num(x.id)]
  }

  /** Some artist in `artists` has id `id`. */
  ghost predicate HasId(artists: seq<Artist>, id: nat) {
    exists i :: 0 <= i < |artists| && artists[i].id == id
  }

  /** No two artists in `artists` share an id. */
  ghost predicate UniqueIds(artists: seq<Artist>) {
    forall i, j :: 0 <= i < j < |artists| ==> artists[i].id != artists[j].id
  }

  /** `artists[k]` is the first artist in `artists` with id `id`. */
  ghost predicate FirstWithId(artists: seq<Artist>, id: nat, k: int) {
    0 <= k < |artists| && artists[k].id == id && forall j :: 0 <= j < k ==> artists[j].id != id
  }

  /** `artists.findIndex(a => a.id === id)`: the index of the first artist
   *  with that id, or -1 when there is none. */
  function IndexOfId(artists: seq<Artist>, id: nat): (k: int)
    ensures k == -1 <==> !HasId(artists, id)
    ensures k != -1 ==> FirstWithId(artists, id, k)
  {
    if artists == [] then -1
    else if artists[0].id == id then 0
    else
      var k := IndexOfId(artists[1..], id);
      assert forall i :: 1 <= i < |artists| ==> artists[1..][i - 1] == artists[i];
      assert HasId(artists, id) ==> HasId(artists[1..], id) by {
        if HasId(artists, id) {
          var i :| 0 <= i < |artists| && artists[i].id == id;
          assert i > 0 && artists[1..][i - 1].id == id;
        }
      }
      if k == -1 then -1 else k + 1
  }

  /** `artists.find(a => a.id === id)`: the first artist with that id, if any. */
  function GetArtist(artists: seq<Artist>, id: nat): (r: Option<Artist>)
    ensures r.Some? <==> HasId(artists, id)
    ensures r.Some? ==> exists k :: FirstWithId(artists, id, k) && artists[k] == r.value
  {
    var k := IndexOfId(artists, id);
    if k == -1 then None else Some(artists[k])
  }
}
