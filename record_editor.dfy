/** The edit-commit gate of one record row (src/pages/records/Record.js):
 *  a working copy of the record and of its artist, edited field by field,
 *  committed to the parent only when something changed and no value is
 *  empty, and thrown away on cancel.
 */
module RecordEditor {
  import opened Catalog

  /** The message shown when a commit is refused. */
  const EmptyValuesError: string := "Values can't be empty!"

  const EnterKey: nat := 13
  const EscapeKey: nat := 27

  /** A call the row makes to its parent's `saveRecord` or `saveArtist`. */
  datatype Commit = SaveRecord(record: Record) | SaveArtist(artist: Artist)

  /** The inputs of the form that `fieldChange` handles. */
  datatype Field = AlbumTitle | Year | Condition

  /** What the row renders: nothing, the details, or the edit form. */
  datatype View = Nothing | Details | Form

  /** How a commit attempt ends: the row leaves edit mode after making
   *  `calls`, or the commit is refused and the row stays in edit mode. */
  datatype Outcome = Closed(calls: seq<Commit>) | Refused

  /** No value in `values` is the empty string. */
  predicate NoEmptyValue(values: seq<JsValue>) {
    forall i :: 0 <= i < |values| ==> values[i] != Str("")
  }

  /** `isValid(obj)`: the `for...in` loop over the values of `obj` that
   *  returns false at the first empty string. */
  method IsValid(values: seq<JsValue>) returns (valid: bool)
    ensures valid <==> NoEmptyValue(values)
  {
    for i := 0 to |values|
      invariant forall k :: 0 <= k < i ==> values[k] != Str("")
    {
      if values[i] == Str("") {
        return false;
      }
    }
    return true;
  }

  /** Of a record's values only the title, the year and the condition can be
   *  empty: the id, the artist id and `show` never are. */
  lemma RecordValidity(r: Record)
    ensures NoEmptyValue(RecordValues(r)) <==> r.albumTitle != "" && r.year != Str("") && r.condition != ""
  {
    var vs := RecordValues(r);
    assert vs[0] == Str(r.albumTitle) && vs[1] == r.year && vs[2] == Str(r.condition);
  }

  /** Of an artist's values only the name can be empty. */
  lemma ArtistValidity(a: Artist)
    ensures NoEmptyValue(ArtistValues(Some(a))) <==> a.name != ""
  {
    assert ArtistValues(Some(a))[0] == Str(a.name);
  }

  /** `{ ...prevRecord, [name]: value }`: only the named field changes. An
   *  edited year is the input's text; the `parseInt` on the year branch
   *  discards its result and so has no effect. */
  function SetField(r: Record, name: Field, value: string): (out: Record)
    ensures out.id == r.id && out.artist == r.artist && out.show == r.show
    ensures out.albumTitle == (if name == AlbumTitle then value else r.albumTitle)
    ensures out.year == (if name == Year then Str(value) else r.year)
    ensures out.condition == (if name == Condition then value else r.condition)
  {
    match name
    case AlbumTitle => r.(albumTitle := value)
    case Year => r.(year := Str(value))
    case Condition => r.(condition := value)
  }

  /** What `saveData` decides from the change flags and the working copies:
   *  with nothing changed the row closes without a call; with an empty value
   *  it refuses; otherwise it saves the record if it changed and then the
   *  artist if it changed, each at most once, and closes. */
  function SaveDecision(recordChanged: bool, artistChanged: bool, currRecord: Record, currArtist: Artist): (o: Outcome)
    ensures !recordChanged && !artistChanged ==> o == Closed([])
    ensures o.Refused? <==>
      (recordChanged || artistChanged)
      && !(NoEmptyValue(RecordValues(currRecord)) && NoEmptyValue(ArtistValues(Some(currArtist))))
    ensures o.Closed? ==>
      && (SaveRecord(currRecord) in o.calls <==> recordChanged)
      && (SaveArtist(currArtist) in o.calls <==> artistChanged)
      && (forall c :: c in o.calls ==> c == SaveRecord(currRecord) || c == SaveArtist(currArtist))
      && |o.calls| == (if recordChanged then 1 else 0) + (if artistChanged then 1 else 0)
    ensures o.Closed? && |o.calls| == 2 ==> o.calls == [SaveRecord(currRecord), SaveArtist(currArtist)]
  {
    if recordChanged || artistChanged then
      if NoEmptyValue(RecordValues(currRecord)) && NoEmptyValue(ArtistValues(Some(currArtist))) then
        Closed((if recordChanged then [SaveRecord(currRecord)] else [])
          + (if artistChanged then [SaveArtist(currArtist)] else []))
      else Refused
    else Closed([])
  }

  /** `e.keyCode || e.which`: the key code, or `which` when the code is 0. */
  function KeyOf(keyCode: nat, which: nat): nat {
    if keyCode != 0 then keyCode else which
  }

  class Editor {
    /** The props: the stored record and its artist. */
    var record: Record
    var artist: Artist
    var editing: bool
    /** The working copies the form edits. */
    var currRecord: Record
    var currArtist: Artist
    var formError: Option<string>
    /** Whether a working copy is no longer the prop object itself
     *  (`currRecord !== record`, `currArtist !== artist`). */
    var recordChanged: bool
    var artistChanged: bool

    /** An unchanged working copy is the prop; the form never edits a
     *  record's id, artist or `show`, nor an artist's id. */
    ghost predicate Valid()
      reads this
    {
      && (!recordChanged ==> currRecord == record)
      && (!artistChanged ==> currArtist == artist)
      && currRecord.id == record.id && currRecord.artist == record.artist && currRecord.show == record.show
      && currArtist.id == artist.id
    }

    constructor (record: Record, artist: Artist)
      ensures Valid()
      ensures this.record == record && this.artist == artist
      ensures !editing && currRecord == record && currArtist == artist && formError == None
      ensures !recordChanged && !artistChanged
    {
      this.record := record;
      this.artist := artist;
      editing := false;
      currRecord := record;
      currArtist := artist;
      formError := None;
      recordChanged := false;
      artistChanged := false;
    }

    /** `record.show ? editing ? recordForm : recordList : <></>`. */
    function Render(): (v: View)
      reads this
      ensures !record.show ==> v == Nothing
      ensures record.show ==> (v == Form <==> editing) && v != Nothing
    {
      if record.show then (if editing then Form else Details) else Nothing
    }

    /** A click on the edit button. */
    method StartEditing()
      modifies this`editing
      ensures editing
    {
      editing := true;
    }

    /** `handleEditBtnKeyUp`: Enter on the edit button enters edit mode. */
    method HandleEditBtnKeyUp(keyCode: nat, which: nat)
      modifies this`editing
      ensures editing == (KeyOf(keyCode, which) == EnterKey || old(editing))
    {
      if KeyOf(keyCode, which) == EnterKey {
        editing := true;
      }
    }

    /** The `useEffect` on the record prop: a new record object from the
     *  parent replaces the working copy. */
    method ReceiveRecord(r: Record)
      requires Valid()
      modifies this`record, this`currRecord, this`recordChanged
      ensures Valid()
      ensures record == r && currRecord == r && !recordChanged
    {
      record := r;
      currRecord := r;
      recordChanged := false;
    }

    /** The `useEffect` on the artist prop. */
    method ReceiveArtist(a: Artist)
      requires Valid()
      modifies this`artist, this`currArtist, this`artistChanged
      ensures Valid()
      ensures artist == a && currArtist == a && !artistChanged
    {
      artist := a;
      currArtist := a;
      artistChanged := false;
    }

    /** `fieldChange`: the named field of the working record takes the input's value. */
    method FieldChange(name: Field, value: string)
      requires Valid()
      modifies this`currRecord, this`recordChanged
      ensures Valid()
      ensures currRecord == SetField(old(currRecord), name, value) && recordChanged
    {
      currRecord := SetField(currRecord, name, value);
      recordChanged := true;
    }

    /** `artistChange`: the working artist's name takes the input's value. */
    method ArtistChange(value: string)
      requires Valid()
      modifies this`currArtist, this`artistChanged
      ensures Valid()
      ensures currArtist == old(currArtist).(name := value) && artistChanged
    {
      currArtist := currArtist.(name := value);
      artistChanged := true;
    }

    /** `saveData`: clears the error, then commits as `SaveDecision` says and
     *  leaves edit mode, or shows the empty-value error and stays. The change
     *  flags are left as they are: only new props from the parent clear them. */
    method SaveData() returns (calls: seq<Commit>)
      requires Valid()
      modifies this`editing, this`formError
      ensures Valid()
      ensures match SaveDecision(recordChanged, artistChanged, currRecord, currArtist)
        case Closed(cs) => calls == cs && !editing && formError == None
        case Refused => calls == [] && editing == old(editing) && formError == Some(EmptyValuesError)
    {
      formError := None;
      calls := [];
      if recordChanged || artistChanged {
        var recordValid := IsValid(RecordValues(currRecord));
        var artistValid := IsValid(ArtistValues(Some(currArtist)));
        if recordValid && artistValid {
          if recordChanged {
            calls := calls + [SaveRecord(currRecord)];
          }
          if artistChanged {
            calls := calls + [SaveArtist(currArtist)];
          }
          editing := false;
        } else {
          formError := Some(EmptyValuesError);
        }
      } else {
        editing := false;
      }
    }

    /** `cancelEditRecord`: leaves edit mode, clears the error and puts the
     *  props back as the working copies, without any call. */
    method CancelEditRecord()
      requires Valid()
      modifies this`editing, this`formError, this`currRecord, this`currArtist,
        this`recordChanged, this`artistChanged
      ensures Valid()
      ensures !editing && formError == None
      ensures currRecord == record && currArtist == artist && !recordChanged && !artistChanged
    {
      editing := false;
      formError := None;
      currRecord := record;
      currArtist := artist;
      recordChanged := false;
      artistChanged := false;
    }

    /** `handleFormKeyDown`: Escape cancels, Enter saves, any other key does nothing. */
    method HandleFormKeyDown(keyCode: nat, which: nat) returns (calls: seq<Commit>)
      requires Valid()
      modifies this`editing, this`formError, this`currRecord, this`currArtist,
        this`recordChanged, this`artistChanged
      ensures Valid()
      ensures KeyOf(keyCode, which) == EscapeKey ==>
        && calls == [] && !editing && formError == None
        && currRecord == record && currArtist == artist && !recordChanged && !artistChanged
      ensures KeyOf(keyCode, which) == EnterKey ==>
        && currRecord == old(currRecord) && currArtist == old(currArtist)
        && recordChanged == old(recordChanged) && artistChanged == old(artistChanged)
        && match SaveDecision(recordChanged, artistChanged, currRecord, currArtist)
           case Closed(cs) => calls == cs && !editing && formError == None
           case Refused => calls == [] && editing == old(editing) && formError == Some(EmptyValuesError)
      ensures KeyOf(keyCode, which) != EscapeKey && KeyOf(keyCode, which) != EnterKey ==>
        && calls == [] && editing == old(editing) && formError == old(formError)
        && currRecord == old(currRecord) && currArtist == old(currArtist)
        && recordChanged == old(recordChanged) && artistChanged == old(artistChanged)
    {
      calls := [];
      var key := KeyOf(keyCode, which);
      if key == EscapeKey {
        CancelEditRecord();
      }
      if key == EnterKey {
        calls := SaveData();
      }
    }
  }
}
