// The session logic of the Tk front end: the pending-change dictionary and its save, photo
// navigation, and the keyboard-driven location suggestion list. As in the Qt front end,
// every handler is specified by a function from the state before the event to the state
// after, and the `Editor` class performs the same steps on its fields.

module TkEditor {
  import opened Wrappers
  import opened PyText
  import opened Calendar
  import opened Exif
  import opened Pending

  // ---------------------------------------------------------------------------------------
  // Highlight cycling

  /** `on_location_up_key` on a list of `n` suggestions: one up, from the top to the bottom. */
  function Up(h: int, n: nat): (r: int)
    ensures n > 0 && -1 <= h < n ==> 0 <= r < n
    ensures n == 0 ==> r == h
  {
    if n == 0 then h else if h > 0 then h - 1 else n - 1
  }

  /** `on_location_down_key`: one down, from the bottom to the top. */
  function Down(h: int, n: nat): (r: int)
    ensures n > 0 && -1 <= h < n ==> 0 <= r < n
    ensures n == 0 ==> r == h
  {
    if n == 0 then h else if h < n - 1 then h + 1 else 0
  }

  /** Down then up, or up then down, comes back to the same suggestion. */
  lemma UpUndoesDown(h: int, n: nat)
    requires 0 <= h < n
    ensures Up(Down(h, n), n) == h && Down(Up(h, n), n) == h
  {
  }

  function DownTimes(h: int, n: nat, k: nat): int {
    if k == 0 then h else Down(DownTimes(h, n, k - 1), n)
  }

  function UpTimes(h: int, n: nat, k: nat): int {
    if k == 0 then h else Up(UpTimes(h, n, k - 1), n)
  }

  /** Up to a full round of `k` presses of Down moves the highlight `k` places down,
      wrapping past the bottom; `n` presses come back to where they started. */
  lemma {:induction false} DownCycles(h: int, n: nat, k: nat)
    requires 0 <= h < n && k <= n
    ensures DownTimes(h, n, k) == if h + k < n then h + k else h + k - n
  {
    if k > 0 {
      DownCycles(h, n, k - 1);
    }
  }

  /** The same for Up, wrapping past the top. */
  lemma {:induction false} UpCycles(h: int, n: nat, k: nat)
    requires 0 <= h < n && k <= n
    ensures UpTimes(h, n, k) == if k <= h then h - k else h - k + n
  {
    if k > 0 {
      UpCycles(h, n, k - 1);
    }
  }

  /** `locations[:5]`. */
  const MaxSuggestions: int := 5

  function FirstFive(places: seq<Place>): (r: seq<Place>)
    ensures |r| <= MaxSuggestions && |r| <= |places| && r == places[..|r|]
    ensures |r| == MaxSuggestions || r == places
  {
    if |places| > MaxSuggestions then places[..MaxSuggestions] else places
  }

  // ---------------------------------------------------------------------------------------
  // The editor's state and one function per event

  /** The date entry, the caption box and the location entry. */
  datatype Form = Form(date: string, caption: string, location: string)

  /** What loading a photo gets from the parts of the system this model leaves out: whether
      `Image.open` succeeded, and the caption and location texts. */
  datatype Loaded = Loaded(imageOk: bool, caption: string, location: string)

  /** The attributes of the Tk window that the session logic reads and writes. `disk` holds
      each photo's EXIF dictionary; `autoSaveArmed` says whether an auto-save is scheduled. */
  datatype Session = Session(
    files: seq<string>,
    disk: seq<IfdMap>,
    index: int,
    pending: seq<Change>,
    autoSaveArmed: bool,
    form: Form,
    suggestions: seq<Place>,
    highlighted: int)

  /** The highlight names a suggestion exactly when there are some; at most five are kept. */
  predicate HighlightOk(suggestions: seq<Place>, highlighted: int) {
    && |suggestions| <= MaxSuggestions
    && (if suggestions == [] then highlighted == -1 else 0 <= highlighted < |suggestions|)
  }

  ghost predicate ValidState(s: Session) {
    && |s.disk| == |s.files|
    && (if s.files == [] then s.index == 0 else 0 <= s.index < |s.files|)
    && Distinct(s.pending)
    && HighlightOk(s.suggestions, s.highlighted)
  }

  /** `schedule_metadata_save(field, value)`. */
  function Schedule(s: Session, c: Change): (r: Session)
    requires ValidState(s)
    ensures ValidState(r)
    ensures Entry(r.pending, FieldOf(c)) == Some(c) && r.autoSaveArmed
    ensures forall f :: f != FieldOf(c) ==> Entry(r.pending, f) == Entry(s.pending, f)
    ensures r.(pending := s.pending, autoSaveArmed := s.autoSaveArmed) == s
  {
    UpsertLatestWins(s.pending, c);
    s.(pending := Upsert(s.pending, c), autoSaveArmed := true)
  }

  /** `save_pending_metadata`: a writer that raises, or a failed backup or write (`ioOk`
      false), leaves the file and the pending changes as they were. */
  function Save(s: Session, ioOk: bool): (r: Session)
    requires ValidState(s)
    ensures ValidState(r)
  {
    if s.files == [] || s.pending == [] then s
    else
      match ApplyTk(s.disk[s.index], s.pending)
      case None => s
      case Some(e) => if ioOk then s.(disk := s.disk[s.index := e], pending := []) else s
  }

  /** The scheduled auto-save running. */
  function AutoSave(s: Session, ioOk: bool): (r: Session)
    requires ValidState(s)
    ensures ValidState(r)
  {
    Save(s.(autoSaveArmed := false), ioOk)
  }

  /** `save_date_immediately(parsed_date)`. */
  function SaveDateNow(s: Session, t: Stamp, ioOk: bool): (r: Session)
    requires ValidState(s)
    ensures ValidState(r)
  {
    if s.files == [] then s
    else
      UpsertLatestWins(s.pending, DateChange(Some(t)));
      Save(s.(pending := Upsert(s.pending, DateChange(Some(t)))), ioOk)
  }

  /** The date text `load_date_from_exif` puts into the cleared entry. */
  function DateText(d: IfdMap): string {
    match LoadDateTk(d)
    case Some(t) => t
    case None => ""
  }

  /** `load_current_photo` with `load_metadata`: when the image opens, the three fields are
      cleared and refilled from the photo now at `index`. The pending changes and the
      auto-save are left as they are. */
  function Load(s: Session, l: Loaded): (r: Session)
    requires ValidState(s)
    ensures ValidState(r)
  {
    if s.files == [] || !l.imageOk then s
    else s.(form := Form(DateText(s.disk[s.index]), l.caption, l.location))
  }

  /** `previous_photo`. */
  function PreviousPhoto(s: Session, l: Loaded): (r: Session)
    requires ValidState(s)
    ensures ValidState(r)
  {
    if s.files != [] && s.index > 0 then Load(s.(index := s.index - 1), l) else s
  }

  /** `next_photo`. */
  function NextPhoto(s: Session, l: Loaded): (r: Session)
    requires ValidState(s)
    ensures ValidState(r)
  {
    if s.files != [] && s.index < |s.files| - 1 then Load(s.(index := s.index + 1), l) else s
  }

  /** `show_location_suggestions(locations)`. */
  function Show(s: Session, places: seq<Place>): (r: Session)
    requires ValidState(s)
    ensures ValidState(r)
  {
    var kept := FirstFive(places);
    s.(suggestions := kept, highlighted := if kept != [] then 0 else -1)
  }

  /** `hide_location_suggestions`. */
  function Hide(s: Session): (r: Session)
    requires ValidState(s)
    ensures ValidState(r)
  {
    s.(suggestions := [], highlighted := -1)
  }

  /** The Up key in the location entry. */
  function UpKey(s: Session): (r: Session)
    requires ValidState(s)
    ensures ValidState(r)
  {
    if s.suggestions != [] then s.(highlighted := Up(s.highlighted, |s.suggestions|)) else s
  }

  /** The Down key in the location entry. */
  function DownKey(s: Session): (r: Session)
    requires ValidState(s)
    ensures ValidState(r)
  {
    if s.suggestions != [] then s.(highlighted := Down(s.highlighted, |s.suggestions|)) else s
  }

  /** `select_location_suggestion(place)`: the entry shows the address (no key event, so no
      geocoding), the list closes and the place is scheduled for saving. */
  function Select(s: Session, place: Place): (r: Session)
    requires ValidState(s)
    ensures ValidState(r)
  {
    Schedule(Hide(s.(form := s.form.(location := place.address))), LocationChange(Some(LocationData(place))))
  }

  /** `on_location_enter_key` / `on_location_tab_key` with a suggestion highlighted; without
      one, Enter starts a geocoding lookup and Tab moves the focus, neither of which this
      model follows. */
  function Accept(s: Session): (r: Session)
    requires ValidState(s)
    ensures ValidState(r)
  {
    if s.highlighted >= 0 && s.suggestions != [] then Select(s, s.suggestions[s.highlighted]) else s
  }

  // ---------------------------------------------------------------------------------------
  // What the events promise

  /** Showing keeps the first five places, highlights the first, and an empty result is
      the same as hiding; the keys do nothing without suggestions, and otherwise move the
      highlight one step round the list. */
  lemma SuggestionOutcome(s: Session, places: seq<Place>)
    requires ValidState(s)
    ensures var r := Show(s, places);
      && r.suggestions == FirstFive(places)
      && (places != [] ==> r.highlighted == 0 && r.suggestions[0] == places[0])
      && (places == [] ==> r == Hide(s))
    ensures s.suggestions == [] ==> UpKey(s) == s && DownKey(s) == s
    ensures s.suggestions != [] ==>
      && UpKey(s) == s.(highlighted := UpTimes(s.highlighted, |s.suggestions|, 1))
      && DownKey(s) == s.(highlighted := DownTimes(s.highlighted, |s.suggestions|, 1))
  {
  }

  /** Enter or Tab on a highlighted suggestion schedules exactly that place, closes the list
      and leaves the date and caption slots alone. */
  lemma AcceptOutcome(s: Session)
    requires ValidState(s) && s.suggestions != []
    ensures var r := Accept(s); var place := s.suggestions[s.highlighted];
      && Entry(r.pending, LocationField) == Some(LocationChange(Some(LocationData(place))))
      && Entry(r.pending, DateField) == Entry(s.pending, DateField)
      && Entry(r.pending, CaptionField) == Entry(s.pending, CaptionField)
      && r.suggestions == [] && r.highlighted == -1 && r.form.location == place.address
  {
  }

  /** Without files or pending changes the save does nothing. Otherwise it writes the
      pending changes to the photo shown, or, when a writer raises (a location without
      coordinates) or the write fails, nothing at all; either way no other photo changes. */
  lemma SaveOutcome(s: Session, ioOk: bool)
    requires ValidState(s)
    ensures s.files == [] || s.pending == [] ==> Save(s, ioOk) == s
    ensures s.files != [] && s.pending != [] ==>
      var r := Save(s, ioOk);
      && (ApplyTk(s.disk[s.index], s.pending).None? <==>
            exists i :: 0 <= i < |s.pending| && !HasCoordinates(s.pending[i]))
      && (ApplyTk(s.disk[s.index], s.pending).None? || !ioOk ==> r == s)
      && (ApplyTk(s.disk[s.index], s.pending).Some? && ioOk ==>
            r.pending == [] && r.disk[s.index] == ApplyTk(s.disk[s.index], s.pending).value)
      && forall i :: 0 <= i < |s.disk| && i != s.index ==> r.disk[i] == s.disk[i]
  {
    if s.files != [] && s.pending != [] {
      ApplyTkFails(s.disk[s.index], s.pending);
    }
  }

  /** A date chosen from the preview is on disk at once and reads back as that day, as long
      as no location without coordinates is pending. */
  lemma SaveDateReadsBack(s: Session, t: Stamp)
    requires ValidState(s) && s.files != [] && t.year >= 1000
    requires forall x :: x in s.pending ==> HasCoordinates(x)
    ensures var r := SaveDateNow(s, t, true);
      r.pending == [] && LoadDateTk(r.disk[s.index]) == Some(LongDate(t))
  {
    var c := DateChange(Some(t));
    var p := Upsert(s.pending, c);
    var d := s.disk[s.index];
    UpsertLatestWins(s.pending, c);
    UpsertElements(s.pending, c);
    forall i | 0 <= i < |p|
      ensures HasCoordinates(p[i])
    {
      assert p[i] in p;
    }
    ApplyTkFails(d, p);
    assert ApplyTk(d, p).Some?;
    var e := ApplyTk(d, p).value;
    ApplyTkDate(d, p, Some(t), ExifSub, DateTimeOriginal);
    ApplyTkDate(d, p, Some(t), Zeroth, DateTimeTag);
    DateRoundTripTk(d, t);
    assert LoadDateTk(e) == LoadDateTk(DateTk(d, Some(t)));
  }

  /** Loading refills the three fields from the photo now shown, with the date as the Tk
      reader gives it; it writes nothing, keeps the pending changes and leaves the
      auto-save scheduled. When the image does not open, nothing changes. */
  lemma LoadOutcome(s: Session, l: Loaded)
    requires ValidState(s)
    ensures s.files == [] || !l.imageOk ==> Load(s, l) == s
    ensures s.files != [] && l.imageOk ==>
      var r := Load(s, l);
      && (LoadDateTk(s.disk[s.index]).Some? ==> r.form.date == LoadDateTk(s.disk[s.index]).value)
      && (LoadDateTk(s.disk[s.index]).None? ==> r.form.date == "")
      && r.form.caption == l.caption && r.form.location == l.location
      && r.(form := s.form) == s
  {
  }

  /** A date chosen from the preview shows up in the date field when the photo is loaded
      again, as long as no location without coordinates is pending. */
  lemma ReloadShowsSavedDate(s: Session, t: Stamp, l: Loaded)
    requires ValidState(s) && s.files != [] && t.year >= 1000 && l.imageOk
    requires forall x :: x in s.pending ==> HasCoordinates(x)
    ensures Load(SaveDateNow(s, t, true), l).form.date == LongDate(t)
  {
    SaveDateReadsBack(s, t);
  }

  /** Left and Right move one photo back or on and reload, and do nothing at the first or
      the last photo; either way the pending changes, the scheduled auto-save and every
      file stay as they were. */
  lemma MoveOutcome(s: Session, l: Loaded)
    requires ValidState(s)
    ensures var r := PreviousPhoto(s, l);
      && r.index == (if s.files != [] && s.index > 0 then s.index - 1 else s.index)
      && r.pending == s.pending && r.autoSaveArmed == s.autoSaveArmed && r.disk == s.disk
      && (r.index == s.index ==> r == s)
    ensures var r := NextPhoto(s, l);
      && r.index == (if s.files != [] && s.index < |s.files| - 1 then s.index + 1 else s.index)
      && r.pending == s.pending && r.autoSaveArmed == s.autoSaveArmed && r.disk == s.disk
      && (r.index == s.index ==> r == s)
  {
  }

  /** A change made on one photo and followed, within the auto-save delay, by a move to the
      next photo is written to that next photo, and the photo it was made on keeps its old
      metadata. */
  lemma EditLandsOnNextPhoto(s: Session, c: Change, l: Loaded)
    requires ValidState(s) && s.pending == [] && s.index + 1 < |s.files|
    requires ApplyTk(s.disk[s.index + 1], [c]).Some?
    ensures var r := AutoSave(NextPhoto(Schedule(s, c), l), true);
      && r.index == s.index + 1
      && r.disk[s.index] == s.disk[s.index]
      && r.disk[s.index + 1] == ApplyTk(s.disk[s.index + 1], [c]).value
  {
    var s1 := Schedule(s, c);
    assert Upsert([], c) == [c];
    assert s1.pending == [c] && s1.disk == s.disk;
    var s2 := NextPhoto(s1, l);
    assert s2.index == s.index + 1 && s2.disk == s.disk && s2.pending == [c];
    var e := ApplyTk(s.disk[s.index + 1], [c]).value;
    assert AutoSave(s2, true).disk == s.disk[s.index + 1 := e];
  }

  // ---------------------------------------------------------------------------------------
  // The window

  class Editor {
    var files: seq<string>
    var disk: seq<IfdMap>
    var index: int
    var pending: seq<Change>
    var autoSaveArmed: bool
    var form: Form
    var suggestions: seq<Place>
    var highlighted: int

    function State(): Session
      reads this
    {
      Session(files, disk, index, pending, autoSaveArmed, form, suggestions, highlighted)
    }

    ghost predicate Valid()
      reads this
    {
      ValidState(State())
    }

    /** `__init__` with a folder's photos found, before the first one is shown. */
    constructor (files: seq<string>, disk: seq<IfdMap>)
      requires |disk| == |files|
      ensures Valid()
      ensures State() == Session(files, disk, 0, [], false, Form("", "", ""), [], -1)
    {
      this.files := files;
      this.disk := disk;
      index := 0;
      pending := [];
      autoSaveArmed := false;
      form := Form("", "", "");
      suggestions := [];
      highlighted := -1;
    }

    method ScheduleMetadataSave(c: Change)
      requires Valid()
      modifies this
      ensures Valid() && State() == Schedule(old(State()), c)
    {
      pending := Upsert(pending, c);
      autoSaveArmed := true;
    }

    method SavePendingMetadata(ioOk: bool)
      requires Valid()
      modifies this
      ensures Valid() && State() == Save(old(State()), ioOk)
    {
      if files == [] || pending == [] {
        return;
      }
      var exif := new ExifDict(disk[index]);
      var written := ApplyPendingTk(exif, pending);
      if written && ioOk {
        disk := disk[index := exif.ifds];
        pending := [];
      }
    }

    method AutoSaveTimeout(ioOk: bool)
      requires Valid() && autoSaveArmed
      modifies this
      ensures Valid() && State() == AutoSave(old(State()), ioOk)
    {
      autoSaveArmed := false;
      SavePendingMetadata(ioOk);
    }

    method SaveDateImmediately(t: Stamp, ioOk: bool)
      requires Valid()
      modifies this
      ensures Valid() && State() == SaveDateNow(old(State()), t, ioOk)
    {
      if files == [] {
        return;
      }
      UpsertLatestWins(pending, DateChange(Some(t)));
      pending := Upsert(pending, DateChange(Some(t)));
      SavePendingMetadata(ioOk);
    }

    method LoadCurrentPhoto(l: Loaded)
      requires Valid()
      modifies this
      ensures Valid() && State() == Load(old(State()), l)
    {
      if files == [] || !l.imageOk {
        return;
      }
      // The fields are cleared and refilled; the two steps are one assignment here.
      form := Form(DateText(disk[index]), l.caption, l.location);
    }

    method PreviousPhotoEvent(l: Loaded)
      requires Valid()
      modifies this
      ensures Valid() && State() == PreviousPhoto(old(State()), l)
    {
      ghost var s0 := State();
      if files != [] && index > 0 {
        index := index - 1;
        ghost var s1 := State();
        assert s1 == s0.(index := s0.index - 1) && ValidState(s1);
        assert PreviousPhoto(s0, l) == Load(s1, l);
        LoadCurrentPhoto(l);
      } else {
        assert PreviousPhoto(s0, l) == s0;
      }
    }

    method NextPhotoEvent(l: Loaded)
      requires Valid()
      modifies this
      ensures Valid() && State() == NextPhoto(old(State()), l)
    {
      ghost var s0 := State();
      if files != [] && index < |files| - 1 {
        index := index + 1;
        ghost var s1 := State();
        assert s1 == s0.(index := s0.index + 1) && ValidState(s1);
        assert NextPhoto(s0, l) == Load(s1, l);
        LoadCurrentPhoto(l);
      } else {
        assert NextPhoto(s0, l) == s0;
      }
    }

    method ShowLocationSuggestions(places: seq<Place>)
      requires Valid()
      modifies this
      ensures Valid() && State() == Show(old(State()), places)
    {
      suggestions := FirstFive(places);
      highlighted := if suggestions != [] then 0 else -1;
      if places == [] {
        HideLocationSuggestions();
      }
    }

    method HideLocationSuggestions()
      requires Valid()
      modifies this
      ensures Valid() && State() == Hide(old(State()))
    {
      suggestions := [];
      highlighted := -1;
    }

    method OnLocationUpKey()
      requires Valid()
      modifies this
      ensures Valid() && State() == UpKey(old(State()))
    {
      if suggestions != [] {
        if highlighted > 0 {
          highlighted := highlighted - 1;
        } else {
          highlighted := |suggestions| - 1;
        }
      }
    }

    method OnLocationDownKey()
      requires Valid()
      modifies this
      ensures Valid() && State() == DownKey(old(State()))
    {
      if suggestions != [] {
        if highlighted < |suggestions| - 1 {
          highlighted := highlighted + 1;
        } else {
          highlighted := 0;
        }
      }
    }

    method SelectLocationSuggestion(place: Place)
      requires Valid()
      modifies this
      ensures Valid() && State() == Select(old(State()), place)
    {
      form := form.(location := place.address);
      HideLocationSuggestions();
      ScheduleMetadataSave(LocationChange(Some(LocationData(place))));
    }

    method OnLocationEnterKey()
      requires Valid()
      modifies this
      ensures Valid() && State() == Accept(old(State()))
    {
      if highlighted >= 0 && suggestions != [] {
        SelectLocationSuggestion(suggestions[highlighted]);
      }
    }
  }
}
