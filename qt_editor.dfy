// The session logic of the Qt front end: debounced navigation, the pending-change
// dictionary and its save guards, flush-before-move, and the "Copy from Previous" snapshot.
// Every event handler is specified by a function from the editor's state before the event
// to its state after; the `Editor` class performs the same steps on its fields.

module QtEditor {
  import opened Wrappers
  import opened PyText
  import opened Calendar
  import opened Exif
  import opened Pending

  // ---------------------------------------------------------------------------------------
  // Debounced navigation

  datatype Direction = Previous | Next

  /** `_navigation_debounce_ms`. */
  const DebounceMs: int := 50

  /** `_navigation_pending`, `_pending_direction`, `_last_navigation_time` (milliseconds) and
      the deadline of the single-shot `_navigation_timer` while it runs. */
  datatype Debounce = Debounce(pending: bool, direction: Option<Direction>, lastRequest: int, timer: Option<int>)

  /** The navigation attributes as `__init__` sets them. */
  const Idle: Debounce := Debounce(false, None, 0, None)

  /** The timer runs exactly while a navigation is pending, and a pending navigation has a
      direction. */
  predicate Consistent(d: Debounce) {
    (d.pending <==> d.timer.Some?) && (d.pending ==> d.direction.Some?)
  }

  /** `_debounced_navigation(direction)` at time `now`: the first request arms the timer,
      later ones only overwrite the direction and the time of the last request. */
  function Request(d: Debounce, dir: Direction, now: int): (r: Debounce)
    ensures Consistent(d) ==> Consistent(r)
    ensures r.pending && r.direction == Some(dir) && r.lastRequest == now
    ensures d.pending ==> r.timer == d.timer
    ensures !d.pending ==> r.timer == Some(now + DebounceMs)
  {
    if d.pending then d.(lastRequest := now, direction := Some(dir))
    else Debounce(true, Some(dir), now, Some(now + DebounceMs))
  }

  /** `_execute_navigation` when the timer fires at `now`: re-arm while requests are still
      arriving, otherwise clear the pending flag and hand back the direction to move in. */
  function Fire(d: Debounce, now: int): (r: (Debounce, Option<Direction>))
    ensures r.0.direction == d.direction && r.0.lastRequest == d.lastRequest
    ensures r.1.Some? ==> r.1 == d.direction && !r.0.pending && r.0.timer.None?
    ensures Consistent(d) && d.pending ==> Consistent(r.0)
    ensures Consistent(d) && d.pending ==> (r.1.Some? <==> now - d.lastRequest >= DebounceMs)
  {
    if now - d.lastRequest < DebounceMs then (d.(timer := Some(now + DebounceMs)), None)
    else (d.(pending := false, timer := None), d.direction)
  }

  /** A run of key presses, each with its time. */
  function RequestAll(d: Debounce, reqs: seq<(Direction, int)>): Debounce
    decreases |reqs|
  {
    if reqs == [] then d
    else
      var last := reqs[|reqs| - 1];
      Request(RequestAll(d, reqs[..|reqs| - 1]), last.0, last.1)
  }

  /** After a run of requests from an idle state, the timer is the one the first request
      armed, and the direction and time are those of the last request. */
  lemma {:induction false} BurstState(d: Debounce, reqs: seq<(Direction, int)>)
    requires !d.pending && reqs != []
    ensures RequestAll(d, reqs)
      == Debounce(true, Some(reqs[|reqs| - 1].0), reqs[|reqs| - 1].1, Some(reqs[0].1 + DebounceMs))
    decreases |reqs|
  {
    if |reqs| > 1 {
      var init := reqs[..|reqs| - 1];
      BurstState(d, init);
      assert init[0] == reqs[0];
    }
  }

  /** Key presses that all arrive before the first timer fires give exactly one move, in the
      direction of the last press: at the first firing if every press came at once, otherwise
      at the second, after which nothing is pending. */
  lemma BurstMovesOnce(d: Debounce, reqs: seq<(Direction, int)>)
    requires !d.pending && reqs != []
    requires forall i :: 0 <= i < |reqs| ==> reqs[0].1 <= reqs[i].1 < reqs[0].1 + DebounceMs
    ensures
      var t0 := reqs[0].1;
      var last := reqs[|reqs| - 1];
      var first := Fire(RequestAll(d, reqs), t0 + DebounceMs);
      var second := Fire(first.0, t0 + 2 * DebounceMs);
      && (first.1.Some? <==> last.1 == t0)
      && (first.1.Some? ==> first.1 == Some(last.0) && !first.0.pending && first.0.timer.None?)
      && (first.1.None? ==>
            first.0.timer == Some(t0 + 2 * DebounceMs)
            && second.1 == Some(last.0) && !second.0.pending && second.0.timer.None?)
  {
    BurstState(d, reqs);
  }

  /** The index after `_navigate_previous` / `_navigate_next`: one step, or no move at
      either end. */
  function Moved(index: int, count: int, dir: Direction): (j: int)
    requires 0 <= index < count
    ensures 0 <= j < count
    ensures j == index <==> (dir == Previous && index == 0) || (dir == Next && index == count - 1)
    ensures j != index ==> j == index + (if dir == Next then 1 else -1)
  {
    match dir
    case Previous => if index > 0 then index - 1 else index
    case Next => if index < count - 1 then index + 1 else index
  }

  /** The photos `_preload_adjacent_images` loads in the background: the next one, then the
      previous one, when they exist. */
  function PreloadTargets(index: int, count: int): (r: seq<int>)
    requires 0 <= index < count
    ensures forall j :: j in r ==> 0 <= j < count && (j == index + 1 || j == index - 1)
    ensures (index + 1 < count <==> index + 1 in r) && (index > 0 <==> index - 1 in r)
    ensures index + 1 < count ==> r[0] == index + 1
  {
    (if index + 1 < count then [index + 1] else []) + (if index - 1 >= 0 then [index - 1] else [])
  }

  // ---------------------------------------------------------------------------------------
  // The metadata fields and the "Copy from Previous" snapshot

  /** The date entry, the caption box, the location entry and `_last_selected_location`. */
  datatype Form = Form(date: string, caption: string, location: string, selected: Option<Location>)

  const EmptyForm: Form := Form("", "", "", None)

  /** `previous_photo_metadata`: its keys 'date', 'caption' and 'location'. */
  datatype Snapshot = Snapshot(date: Option<string>, caption: Option<string>, location: Option<Location>)

  const NoSnapshot: Snapshot := Snapshot(None, None, None)

  predicate Blank(s: string) {
    forall i :: 0 <= i < |s| ==> IsSpace(s[i])
  }

  /** `text.strip()` when that is non-empty; nothing for a blank text. */
  function Stripped(s: string): (r: Option<string>)
    ensures r.None? <==> Blank(s)
    ensures r.Some? ==> !Blank(r.value) && Strip(r.value) == r.value
  {
    StripEmptyIffBlank(s);
    StripIdempotent(s);
    var t := Strip(s);
    if t == [] then None else Some(t)
  }

  /** A text the snapshot may hold: already stripped and not blank. */
  predicate Kept(t: Option<string>) {
    t.Some? ==> !Blank(t.value) && Strip(t.value) == t.value
  }

  predicate WellFormed(s: Snapshot) {
    Kept(s.date) && Kept(s.caption)
  }

  /** `store_current_photo_metadata`: the stripped date and caption when non-empty, and the
      selected location when there is one. */
  function Capture(f: Form): (s: Snapshot)
    ensures WellFormed(s)
    ensures (s.date.None? <==> Blank(f.date)) && (s.caption.None? <==> Blank(f.caption))
    ensures s.location == f.selected
  {
    Snapshot(Stripped(f.date), Stripped(f.caption), f.selected)
  }

  predicate IsEmpty(s: Snapshot) {
    s.date.None? && s.caption.None? && s.location.None?
  }

  /** Position of a field name in the order the hint lists them. */
  function Rank(name: string): int {
    if name == "date" then 0 else if name == "caption" then 1 else if name == "location" then 2 else 3
  }

  /** `fields_to_copy`: the keys present, always in date, caption, location order. */
  function FieldNames(s: Snapshot): (r: seq<string>)
    ensures ("date" in r <==> s.date.Some?) && ("caption" in r <==> s.caption.Some?)
    ensures "location" in r <==> s.location.Some?
    ensures forall i :: 0 <= i < |r| ==> Rank(r[i]) < 3
    ensures forall i, j :: 0 <= i < j < |r| ==> Rank(r[i]) < Rank(r[j])
    ensures r == [] <==> IsEmpty(s)
  {
    (if s.date.Some? then ["date"] else [])
    + (if s.caption.Some? then ["caption"] else [])
    + (if s.location.Some? then ["location"] else [])
  }

  /** `', '.join(parts)`. */
  function CommaJoin(parts: seq<string>): string {
    if parts == [] then ""
    else if |parts| == 1 then parts[0]
    else parts[0] + ", " + CommaJoin(parts[1..])
  }

  const NoPreviousHint: string := "No previous photo metadata available"

  /** The hint `update_copy_button_state` shows. Its "No metadata to copy" branch cannot be
      taken: a non-empty snapshot always names at least one field. */
  function CopyHint(s: Snapshot): (r: string)
    ensures IsEmpty(s) ==> r == NoPreviousHint
    ensures !IsEmpty(s) ==> r == "Will copy: " + CommaJoin(FieldNames(s)) && FieldNames(s) != []
  {
    if IsEmpty(s) then NoPreviousHint
    else
      var names := FieldNames(s);
      if names != [] then "Will copy: " + CommaJoin(names) else "No metadata to copy"
  }

  // ---------------------------------------------------------------------------------------
  // The editor's state and one function per event

  /** What loading a photo gets from the parts of the system this model leaves out: whether
      the image opened, the caption text read from the file, and the location text and
      reverse-geocoded location. */
  datatype Loaded = Loaded(imageOk: bool, caption: string, location: string, selected: Option<Location>)

  /** The attributes of the Qt window that the session logic reads and writes. `disk` holds
      each photo's EXIF dictionary as the editor last wrote or read it (the round trip
      through `piexif.dump` and `piexif.load` is not modelled); `autoSaveArmed` says whether
      the one-second auto-save timer is running. */
  datatype Session = Session(
    files: seq<string>,
    disk: seq<IfdMap>,
    index: int,
    pending: seq<Change>,
    autoSaveArmed: bool,
    metadataLoaded: bool,
    nav: Debounce,
    form: Form,
    previous: Snapshot,
    copyEnabled: bool,
    copyHint: string)

  ghost predicate ValidState(s: Session) {
    && |s.disk| == |s.files|
    && (if s.files == [] then s.index == 0 else 0 <= s.index < |s.files|)
    && Distinct(s.pending)
    && Consistent(s.nav)
    && WellFormed(s.previous)
  }

  /** `schedule_metadata_save(field, value)`: one slot per field, the timer restarted. */
  function Schedule(s: Session, c: Change): (r: Session)
    requires ValidState(s)
    ensures ValidState(r)
    ensures Entry(r.pending, FieldOf(c)) == Some(c) && r.autoSaveArmed
    ensures forall f :: f != FieldOf(c) ==> Entry(r.pending, f) == Entry(s.pending, f)
    ensures r.(pending := s.pending, autoSaveArmed := s.autoSaveArmed) == s
  {
    UpsertLatestWins(s.pending, c);
    s.(pending := Upsert(s.pending, c), autoSaveArmed := true)
  }

  /** The guards of `save_pending_metadata`. */
  predicate SaveRuns(s: Session) {
    s.pending != [] && s.files != [] && s.metadataLoaded
  }

  /** `save_pending_metadata`; `ioOk` says whether the backup, `piexif.dump` and
      `piexif.insert` succeeded. */
  function Save(s: Session, ioOk: bool): (r: Session)
    requires ValidState(s)
    ensures ValidState(r)
  {
    if SaveRuns(s) && ioOk then
      s.(disk := s.disk[s.index := ApplyQt(s.disk[s.index], s.pending)], pending := [])
    else s
  }

  /** The auto-save timer firing. */
  function AutoSave(s: Session, ioOk: bool): (r: Session)
    requires ValidState(s)
    ensures ValidState(r)
  {
    Save(s.(autoSaveArmed := false), ioOk)
  }

  /** `save_date_immediately(parsed_date)`: the date goes into the dictionary and the save
      runs at once; the auto-save timer is left as it is. */
  function SaveDateNow(s: Session, t: Stamp, ioOk: bool): (r: Session)
    requires ValidState(s)
    ensures ValidState(r)
  {
    if s.files == [] then s
    else
      UpsertLatestWins(s.pending, DateChange(Some(t)));
      Save(s.(pending := Upsert(s.pending, DateChange(Some(t)))), ioOk)
  }

  /** `_save_pending_changes_before_navigation`. */
  function Flush(s: Session, ioOk: bool): (r: Session)
    requires ValidState(s)
    ensures ValidState(r)
  {
    if s.pending != [] then Save(s.(autoSaveArmed := false), ioOk) else s
  }

  /** `store_current_photo_metadata`. */
  function Store(s: Session): (r: Session)
    requires ValidState(s)
    ensures ValidState(r)
  {
    if s.files == [] then s else s.(previous := Capture(s.form))
  }

  /** `update_copy_button_state`. */
  function UpdateCopy(s: Session): Session {
    s.(copyEnabled := !IsEmpty(s.previous), copyHint := CopyHint(s.previous))
  }

  /** The date text `load_date_from_exif` leaves in the cleared entry. */
  function DateText(d: IfdMap): string {
    match LoadDateQt(d)
    case Some(t) => t
    case None => ""
  }

  /** `load_current_photo` with `load_metadata`: when the image opens, the fields are
      cleared and refilled from the photo, without signals, and the copy button is
      refreshed; otherwise nothing changes. */
  function Load(s: Session, l: Loaded): (r: Session)
    requires ValidState(s)
    ensures ValidState(r)
  {
    if s.files == [] || !l.imageOk then s
    else
      var form := Form(DateText(s.disk[s.index]), l.caption, l.location, l.selected);
      UpdateCopy(s.(metadataLoaded := true, form := form))
  }

  /** `_navigate_previous` / `_navigate_next`: at either end nothing changes; otherwise
      flush, take the snapshot, move one step and load. */
  function Navigate(s: Session, dir: Direction, ioOk: bool, l: Loaded): (r: Session)
    requires ValidState(s)
    ensures ValidState(r)
  {
    if s.files == [] then s
    else
      var j := Moved(s.index, |s.files|, dir);
      if j == s.index then s
      else Load(Store(Flush(s, ioOk)).(index := j), l)
  }

  /** `previous_photo` / `next_photo`. */
  function RequestMove(s: Session, dir: Direction, now: int): (r: Session)
    requires ValidState(s)
    ensures ValidState(r)
  {
    s.(nav := Request(s.nav, dir, now))
  }

  /** The navigation timer firing at `now`. */
  function NavTimeout(s: Session, now: int, ioOk: bool, l: Loaded): (r: Session)
    requires ValidState(s) && s.nav.pending
    ensures ValidState(r)
  {
    var (n, move) := Fire(s.nav, now);
    var s' := s.(nav := n);
    if move.Some? then Navigate(s', move.value, ioOk, l) else s'
  }

  /** `on_date_change` after the entry's text became `text`: a blank date schedules its
      removal; any other text only opens the preview. */
  function DateEdited(s: Session, text: string): (r: Session)
    requires ValidState(s)
    ensures ValidState(r)
  {
    var s' := s.(form := s.form.(date := text));
    if s.files != [] && Blank(text) then Schedule(s', DateChange(None)) else s'
  }

  /** `date_entry.setText(text)`: the signal is emitted only when the text changes. */
  function SetDateText(s: Session, text: string): (r: Session)
    requires ValidState(s)
    ensures ValidState(r)
  {
    if text == s.form.date then s else DateEdited(s, text)
  }

  /** `on_caption_change` after the caption became `text`. */
  function CaptionEdited(s: Session, text: string): (r: Session)
    requires ValidState(s)
    ensures ValidState(r)
  {
    var s' := s.(form := s.form.(caption := text));
    if s.files != [] then Schedule(s', CaptionChange(Stripped(text))) else s'
  }

  /** `on_location_change` after the entry became `text`: a blank location schedules the
      GPS removal; other text only starts a geocoding lookup. */
  function LocationEdited(s: Session, text: string): (r: Session)
    requires ValidState(s)
    ensures ValidState(r)
  {
    var s' := s.(form := s.form.(location := text));
    if s.files != [] && Blank(text) then Schedule(s', LocationChange(None)) else s'
  }

  /** `location_entry.setText(text)`. */
  function SetLocationText(s: Session, text: string): (r: Session)
    requires ValidState(s)
    ensures ValidState(r)
  {
    if text == s.form.location then s else LocationEdited(s, text)
  }

  /** `copy_from_previous_photo`. */
  function Copy(s: Session): (r: Session)
    requires ValidState(s)
    ensures ValidState(r)
  {
    var p := s.previous;
    if IsEmpty(p) then s
    else
      var s1 := if p.date.Some? then SetDateText(s, p.date.value) else s;
      var s2 := if p.caption.Some? then CaptionEdited(s1, p.caption.value) else s1;
      if p.location.Some? then
        var s3 := SetLocationText(s2, p.location.value.address);
        s3.(form := s3.form.(selected := p.location))
      else s2
  }

  /** `select_location_suggestion(place)`. */
  function Select(s: Session, place: Place): (r: Session)
    requires ValidState(s)
    ensures ValidState(r)
  {
    var data := LocationData(place);
    var s1 := SetLocationText(s, place.address);
    Schedule(s1.(form := s1.form.(selected := Some(data))), LocationChange(Some(data)))
  }

  // ---------------------------------------------------------------------------------------
  // What the events promise

  /** The save guards: nothing happens without pending changes, without files or before the
      metadata has loaded; a failed write keeps the pending changes; a successful one writes
      them all to the photo shown, clears them, and leaves every other photo alone. */
  lemma SaveOutcome(s: Session, ioOk: bool)
    requires ValidState(s)
    ensures var r := Save(s, ioOk);
      && r.index == s.index && r.files == s.files && r.form == s.form
      && (!SaveRuns(s) || !ioOk ==> r == s)
      && (SaveRuns(s) && ioOk ==>
            r.pending == [] && r.disk[s.index] == ApplyQt(s.disk[s.index], s.pending)
            && forall i :: 0 <= i < |s.disk| && i != s.index ==> r.disk[i] == s.disk[i])
  {
  }

  /** A move changes the index by exactly one step and otherwise nothing; before moving, the
      pending changes go to the photo they were made on, and the snapshot is taken from that
      photo's fields. */
  lemma NavigateOutcome(s: Session, dir: Direction, ioOk: bool, l: Loaded)
    requires ValidState(s) && s.files != []
    ensures var r := Navigate(s, dir, ioOk, l);
      var j := Moved(s.index, |s.files|, dir);
      && r.index == j
      && (j == s.index ==> r == s)
      && (j != s.index ==>
            && r.previous == Capture(s.form)
            && r.disk[j] == s.disk[j]
            && (SaveRuns(s) && ioOk ==>
                  r.pending == [] && r.disk[s.index] == ApplyQt(s.disk[s.index], s.pending))
            && (!(SaveRuns(s) && ioOk) ==> r.pending == s.pending && r.disk == s.disk))
  {
    if Moved(s.index, |s.files|, dir) != s.index {
      SaveOutcome(s.(autoSaveArmed := false), ioOk);
    }
  }

  /** A change made on one photo and followed by a move is written to that photo; the
      auto-save that fires afterwards finds nothing left to write to the next one. */
  lemma EditStaysWithItsPhoto(s: Session, c: Change, l: Loaded)
    requires ValidState(s) && s.metadataLoaded && s.index + 1 < |s.files|
    ensures var r := Navigate(Schedule(s, c), Next, true, l);
      && r.index == s.index + 1
      && r.disk[s.index] == ApplyQt(s.disk[s.index], Upsert(s.pending, c))
      && AutoSave(r, true).disk == r.disk
      && AutoSave(r, true).disk[s.index + 1] == s.disk[s.index + 1]
  {
    var s1 := Schedule(s, c);
    assert s1.pending == Upsert(s.pending, c);
    UpsertLatestWins(s.pending, c);
    assert s1.pending != [] by {
      assert Entry(s1.pending, FieldOf(c)).Some?;
    }
    NavigateOutcome(s1, Next, true, l);
  }

  /** A date chosen from the preview is on disk at once and reads back as that day, whatever
      else was pending. */
  lemma SaveDateReadsBack(s: Session, t: Stamp)
    requires ValidState(s) && s.files != [] && s.metadataLoaded && t.year >= 1000
    ensures var r := SaveDateNow(s, t, true);
      r.pending == [] && LoadDateQt(r.disk[s.index]) == Some(LongDate(t))
  {
    UpsertLatestWins(s.pending, DateChange(Some(t)));
    SavedDateReadsBack(s.disk[s.index], s.pending, t);
    assert Entry(Upsert(s.pending, DateChange(Some(t))), DateField).Some?;
  }

  /** The copy button is enabled exactly when the snapshot holds something, and its hint
      names the fields present. */
  lemma CopyButtonOutcome(s: Session)
    ensures var r := UpdateCopy(s);
      && (r.copyEnabled <==> !IsEmpty(s.previous))
      && (r.copyEnabled ==> r.copyHint == "Will copy: " + CommaJoin(FieldNames(s.previous)))
      && (!r.copyEnabled ==> r.copyHint == NoPreviousHint)
  {
  }

  /** Setting the date entry to a non-blank text never schedules anything. */
  lemma SetDateNotBlank(s: Session, text: string)
    requires ValidState(s) && !Blank(text)
    ensures SetDateText(s, text) == s.(form := s.form.(date := text))
  {
  }

  /** An edit of the caption changes its text and, at most, the caption's slot. */
  lemma CaptionSlot(s: Session, text: string)
    requires ValidState(s)
    ensures var r := CaptionEdited(s, text);
      && r.form == s.form.(caption := text)
      && r.disk == s.disk && r.index == s.index && r.previous == s.previous && r.files == s.files
      && (s.files != [] ==> Entry(r.pending, CaptionField) == Some(CaptionChange(Stripped(text))))
      && (s.files == [] ==> r.pending == s.pending)
      && forall f :: f != CaptionField ==> Entry(r.pending, f) == Entry(s.pending, f)
  {
  }

  /** Setting the location entry changes its text and, at most, the location's slot. */
  lemma SetLocationSlot(s: Session, text: string)
    requires ValidState(s)
    ensures var r := SetLocationText(s, text);
      && r.form == s.form.(location := text)
      && r.disk == s.disk && r.index == s.index && r.previous == s.previous && r.files == s.files
      && forall f :: f != LocationField ==> Entry(r.pending, f) == Entry(s.pending, f)
  {
    if text != s.form.location && s.files != [] && Blank(text) {
      var s' := s.(form := s.form.(location := text));
      assert SetLocationText(s, text) == Schedule(s', LocationChange(None));
    }
  }

  /** The form with a snapshot's fields put in: the ones present replace the entries' texts
      (and the selected location), the ones absent leave them alone. */
  function Pasted(f: Form, p: Snapshot): Form {
    Form(
      if p.date.Some? then p.date.value else f.date,
      if p.caption.Some? then p.caption.value else f.caption,
      if p.location.Some? then p.location.value.address else f.location,
      if p.location.Some? then p.location else f.selected)
  }

  /** Taking the snapshot of a form a snapshot was pasted into gives back every field the
      pasted snapshot held. */
  lemma PastedRoundTrip(f: Form, p: Snapshot)
    requires WellFormed(p)
    ensures var q := Capture(Pasted(f, p));
      && (p.date.Some? ==> q.date == p.date)
      && (p.caption.Some? ==> q.caption == p.caption)
      && (p.location.Some? ==> q.location == p.location)
      && (p.date.None? ==> q.date == Capture(f).date)
      && (p.caption.None? ==> q.caption == Capture(f).caption)
      && (p.location.None? ==> q.location == Capture(f).location)
  {
    if p.date.Some? {
      assert Stripped(p.date.value) == p.date;
    }
    if p.caption.Some? {
      assert Stripped(p.caption.value) == p.caption;
    }
  }

  /** Copying from an empty snapshot does nothing; otherwise it pastes the snapshot into
      the form. */
  lemma CopyFormOutcome(s: Session)
    requires ValidState(s)
    ensures IsEmpty(s.previous) ==> Copy(s) == s
    ensures !IsEmpty(s.previous) ==> Copy(s).form == Pasted(s.form, s.previous)
  {
    var p := s.previous;
    if !IsEmpty(p) {
      var s1 := if p.date.Some? then SetDateText(s, p.date.value) else s;
      if p.date.Some? {
        SetDateNotBlank(s, p.date.value);
      }
      var s2 := if p.caption.Some? then CaptionEdited(s1, p.caption.value) else s1;
      if p.caption.Some? {
        CaptionSlot(s1, p.caption.value);
      }
      assert s2.form == s.form.(date := s1.form.date, caption := s2.form.caption);
      if p.location.Some? {
        SetLocationSlot(s2, p.location.value.address);
      }
    }
  }

  /** Of the fields copied only the caption is scheduled for saving: the date and the
      location go no further than their entries, except that a blank address replacing a
      non-blank entry schedules the GPS removal. Nothing is written to disk. */
  lemma CopyPendingOutcome(s: Session)
    requires ValidState(s) && !IsEmpty(s.previous)
    ensures var p := s.previous; var r := Copy(s);
      && (p.caption.Some? && s.files != [] ==>
            Entry(r.pending, CaptionField) == Some(CaptionChange(p.caption)))
      && (p.caption.None? || s.files == [] ==> Entry(r.pending, CaptionField) == Entry(s.pending, CaptionField))
      && Entry(r.pending, DateField) == Entry(s.pending, DateField)
      && (p.location.None? ==> Entry(r.pending, LocationField) == Entry(s.pending, LocationField))
      && r.disk == s.disk && r.index == s.index && r.previous == p
  {
    var p := s.previous;
    var s1 := if p.date.Some? then SetDateText(s, p.date.value) else s;
    if p.date.Some? {
      SetDateNotBlank(s, p.date.value);
    }
    assert s1.pending == s.pending && s1.disk == s.disk && s1.previous == p;
    var s2 := if p.caption.Some? then CaptionEdited(s1, p.caption.value) else s1;
    if p.caption.Some? {
      CaptionSlot(s1, p.caption.value);
      assert Stripped(p.caption.value) == p.caption;
    }
    assert s2.disk == s.disk && s2.previous == p && s2.index == s.index;
    if p.location.Some? {
      SetLocationSlot(s2, p.location.value.address);
    }
  }

  /** Choosing a suggestion leaves exactly that place pending for the location, whether or
      not changing the entry's text scheduled a removal first. */
  lemma SelectOutcome(s: Session, place: Place)
    requires ValidState(s)
    ensures var r := Select(s, place);
      && Entry(r.pending, LocationField) == Some(LocationChange(Some(LocationData(place))))
      && Entry(r.pending, DateField) == Entry(s.pending, DateField)
      && Entry(r.pending, CaptionField) == Entry(s.pending, CaptionField)
      && r.form.location == place.address && r.form.selected == Some(LocationData(place))
      && r.autoSaveArmed
  {
  }

  /** Loading refills the three entries and the selected location from the photo now
      shown, with the date as the Qt reader gives it, marks the metadata as loaded and
      refreshes the copy button; it writes nothing and keeps the pending changes. When the
      image does not open, nothing changes. */
  lemma LoadOutcome(s: Session, l: Loaded)
    requires ValidState(s)
    ensures s.files == [] || !l.imageOk ==> Load(s, l) == s
    ensures s.files != [] && l.imageOk ==>
      var r := Load(s, l);
      && (LoadDateQt(s.disk[s.index]).Some? ==> r.form.date == LoadDateQt(s.disk[s.index]).value)
      && (LoadDateQt(s.disk[s.index]).None? ==> r.form.date == "")
      && r.form.caption == l.caption && r.form.location == l.location && r.form.selected == l.selected
      && r.metadataLoaded
      && (r.copyEnabled <==> !IsEmpty(s.previous)) && r.copyHint == CopyHint(s.previous)
      && r.disk == s.disk && r.pending == s.pending && r.index == s.index
      && r.previous == s.previous && r.autoSaveArmed == s.autoSaveArmed && r.nav == s.nav
  {
  }

  /** A date chosen from the preview shows up in the date entry when the photo is loaded
      again. */
  lemma ReloadShowsSavedDate(s: Session, t: Stamp, l: Loaded)
    requires ValidState(s) && s.files != [] && s.metadataLoaded && t.year >= 1000 && l.imageOk
    ensures Load(SaveDateNow(s, t, true), l).form.date == LongDate(t)
  {
    SaveDateReadsBack(s, t);
  }

  /** A date entry left blank schedules the removal of the date; any other text only
      changes the entry. No other slot changes and nothing is written. */
  lemma DateEditOutcome(s: Session, text: string)
    requires ValidState(s)
    ensures var r := DateEdited(s, text);
      && r.form == s.form.(date := text) && r.disk == s.disk && r.index == s.index
      && (s.files != [] && Blank(text) ==>
            Entry(r.pending, DateField) == Some(DateChange(None)) && r.autoSaveArmed)
      && (s.files == [] || !Blank(text) ==> r.pending == s.pending)
      && forall f :: f != DateField ==> Entry(r.pending, f) == Entry(s.pending, f)
  {
  }

  /** A location entry left blank schedules the removal of the GPS data; any other text
      only changes the entry (the geocoding lookup it starts is not modelled). */
  lemma LocationEditOutcome(s: Session, text: string)
    requires ValidState(s)
    ensures var r := LocationEdited(s, text);
      && r.form == s.form.(location := text) && r.disk == s.disk && r.index == s.index
      && (s.files != [] && Blank(text) ==>
            Entry(r.pending, LocationField) == Some(LocationChange(None)) && r.autoSaveArmed)
      && (s.files == [] || !Blank(text) ==> r.pending == s.pending)
      && forall f :: f != LocationField ==> Entry(r.pending, f) == Entry(s.pending, f)
  {
  }

  // ---------------------------------------------------------------------------------------
  // The window

  class Editor {
    var files: seq<string>
    var disk: seq<IfdMap>
    var index: int
    var pending: seq<Change>
    var autoSaveArmed: bool
    var metadataLoaded: bool
    var nav: Debounce
    var form: Form
    var previous: Snapshot
    var copyEnabled: bool
    var copyHint: string

    function State(): Session
      reads this
    {
      Session(files, disk, index, pending, autoSaveArmed, metadataLoaded, nav, form,
                     previous, copyEnabled, copyHint)
    }

    ghost predicate Valid()
      reads this
    {
      ValidState(State())
    }

    /** `__init__` with a folder's photos found, before the first one is shown. */
    constructor (files: seq<string>, disk: seq<IfdMap>)
      requires |disk| == |files|
      ensures Valid()
      ensures State() == Session(files, disk, 0, [], false, false, Idle, EmptyForm,
                                        NoSnapshot, false, NoPreviousHint)
    {
      this.files := files;
      this.disk := disk;
      index := 0;
      pending := [];
      autoSaveArmed := false;
      metadataLoaded := false;
      nav := Idle;
      form := EmptyForm;
      previous := NoSnapshot;
      copyEnabled := false;
      copyHint := NoPreviousHint;
    }

    method ScheduleMetadataSave(c: Change)
      requires Valid()
      modifies this
      ensures Valid() && State() == Schedule(old(State()), c)
    {
      pending := Upsert(pending, c);
      autoSaveArmed := true;
    }

    method SavePendingMetadata(ioOk: bool)
      requires Valid()
      modifies this
      ensures Valid() && State() == Save(old(State()), ioOk)
    {
      if pending == [] || files == [] {
        return;
      }
      if !metadataLoaded {
        return;
      }
      var exif := new ExifDict(disk[index]);
      ApplyPendingQt(exif, pending);
      if ioOk {
        disk := disk[index := exif.ifds];
        pending := [];
      }
    }

    method AutoSaveTimeout(ioOk: bool)
      requires Valid() && autoSaveArmed
      modifies this
      ensures Valid() && State() == AutoSave(old(State()), ioOk)
    {
      autoSaveArmed := false;
      SavePendingMetadata(ioOk);
    }

    method SaveDateImmediately(t: Stamp, ioOk: bool)
      requires Valid()
      modifies this
      ensures Valid() && State() == SaveDateNow(old(State()), t, ioOk)
    {
      if files == [] {
        return;
      }
      UpsertLatestWins(pending, DateChange(Some(t)));
      pending := Upsert(pending, DateChange(Some(t)));
      SavePendingMetadata(ioOk);
    }

    method SavePendingChangesBeforeNavigation(ioOk: bool)
      requires Valid()
      modifies this
      ensures Valid() && State() == Flush(old(State()), ioOk)
    {
      if pending != [] {
        autoSaveArmed := false;
        SavePendingMetadata(ioOk);
      }
    }

    method StoreCurrentPhotoMetadata()
      requires Valid()
      modifies this
      ensures Valid() && State() == Store(old(State()))
    {
      if files == [] {
        return;
      }
      var date := Stripped(form.date);
      var caption := Stripped(form.caption);
      previous := Snapshot(date, caption, form.selected);
    }

    method UpdateCopyButtonState()
      requires Valid()
      modifies this
      ensures Valid() && State() == UpdateCopy(old(State()))
    {
      copyEnabled := !IsEmpty(previous);
      copyHint := CopyHint(previous);
    }

    method LoadCurrentPhoto(l: Loaded)
      requires Valid()
      modifies this
      ensures Valid() && State() == Load(old(State()), l)
    {
      if files == [] || !l.imageOk {
        return;
      }
      // The fields are cleared and refilled while the signals are disconnected, so the
      // two steps are one assignment here.
      metadataLoaded := false;
      form := Form(DateText(disk[index]), l.caption, l.location, l.selected);
      metadataLoaded := true;
      UpdateCopyButtonState();
    }

    method NavigateTo(dir: Direction, ioOk: bool, l: Loaded)
      requires Valid()
      modifies this
      ensures Valid() && State() == Navigate(old(State()), dir, ioOk, l)
    {
      if files == [] {
        return;
      }
      ghost var s0 := State();
      var j := Moved(index, |files|, dir);
      if j != index {
        SavePendingChangesBeforeNavigation(ioOk);
        StoreCurrentPhotoMetadata();
        ghost var s1 := State();
        assert s1 == Store(Flush(s0, ioOk)) && |s1.files| == |s0.files|;
        index := j;
        assert State() == s1.(index := j);
        LoadCurrentPhoto(l);
      }
    }

    method DebouncedNavigation(dir: Direction, now: int)
      requires Valid()
      modifies this
      ensures Valid() && State() == RequestMove(old(State()), dir, now)
    {
      if nav.pending {
        nav := nav.(lastRequest := now, direction := Some(dir));
        return;
      }
      nav := Debounce(true, Some(dir), now, Some(now + DebounceMs));
    }

    method ExecuteNavigation(now: int, ioOk: bool, l: Loaded)
      requires Valid() && nav.timer.Some? && nav.timer.value <= now
      modifies this
      ensures Valid() && State() == NavTimeout(old(State()), now, ioOk, l)
    {
      if now - nav.lastRequest < DebounceMs {
        nav := nav.(timer := Some(now + DebounceMs));
        return;
      }
      var direction := nav.direction;
      nav := nav.(pending := false, timer := None);
      if direction.Some? {
        NavigateTo(direction.value, ioOk, l);
      }
    }

    method OnDateChange(text: string)
      requires Valid()
      modifies this
      ensures Valid() && State() == DateEdited(old(State()), text)
    {
      form := form.(date := text);
      if files != [] && Blank(text) {
        ScheduleMetadataSave(DateChange(None));
      }
    }

    method OnCaptionChange(text: string)
      requires Valid()
      modifies this
      ensures Valid() && State() == CaptionEdited(old(State()), text)
    {
      form := form.(caption := text);
      if files != [] {
        ScheduleMetadataSave(CaptionChange(Stripped(text)));
      }
    }

    method OnLocationChange(text: string)
      requires Valid()
      modifies this
      ensures Valid() && State() == LocationEdited(old(State()), text)
    {
      form := form.(location := text);
      if files != [] && Blank(text) {
        ScheduleMetadataSave(LocationChange(None));
      }
    }

    method SetDateEntry(text: string)
      requires Valid()
      modifies this
      ensures Valid() && State() == SetDateText(old(State()), text)
    {
      if text != form.date {
        OnDateChange(text);
      }
    }

    method SetLocationEntry(text: string)
      requires Valid()
      modifies this
      ensures Valid() && State() == SetLocationText(old(State()), text)
    {
      if text != form.location {
        OnLocationChange(text);
      }
    }

    method CopyFromPreviousPhoto()
      requires Valid()
      modifies this
      ensures Valid() && State() == Copy(old(State()))
    {
      var p := previous;
      if IsEmpty(p) {
        return;
      }
      ghost var s0 := State();
      if p.date.Some? {
        SetDateEntry(p.date.value);
      }
      ghost var s1 := State();
      assert s1 == if p.date.Some? then SetDateText(s0, p.date.value) else s0;
      if p.caption.Some? {
        OnCaptionChange(p.caption.value);
      }
      assert State() == if p.caption.Some? then CaptionEdited(s1, p.caption.value) else s1;
      if p.location.Some? {
        SetLocationEntry(p.location.value.address);
        form := form.(selected := p.location);
      }
    }

    method SelectLocationSuggestion(place: Place)
      requires Valid()
      modifies this
      ensures Valid() && State() == Select(old(State()), place)
    {
      var data := LocationData(place);
      SetLocationEntry(place.address);
      form := form.(selected := Some(data));
      ScheduleMetadataSave(LocationChange(Some(data)));
    }
  }
}
