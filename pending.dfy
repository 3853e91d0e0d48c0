/** `pending_changes`, the dictionary both editors fill while the user edits and empty when
    they save: one slot per field ('date', 'caption', 'location'), kept in insertion order,
    and the way a save applies its entries, in that order, to a photo's EXIF dictionary. */
module Pending {
  import opened Wrappers
  import opened Calendar
  import opened Exif

  datatype Field = DateField | CaptionField | LocationField

  /** One entry of `pending_changes`: the key together with the value waiting to be
      written. `None` asks for the field to be cleared. */
  datatype Change =
    | DateChange(date: Option<Stamp>)
    | CaptionChange(caption: Option<string>)
    | LocationChange(location: Option<Location>)

  /** A geocoder result as the suggestion lists hold it. */
  datatype Place = Place(address: string, latitude: real, longitude: real)

  /** The `location_data` dictionary `select_location_suggestion` builds from a suggestion. */
  function LocationData(p: Place): (l: Location)
    ensures l.address == p.address && l.latitude == Some(p.latitude) && l.longitude == Some(p.longitude)
  {
    Location(p.address, Some(p.latitude), Some(p.longitude))
  }

  function FieldOf(c: Change): Field {
    match c
    case DateChange(_) => DateField
    case CaptionChange(_) => CaptionField
    case LocationChange(_) => LocationField
  }

  /** A dictionary has each key at most once. */
  predicate Distinct(p: seq<Change>) {
    forall i, j :: 0 <= i < j < |p| ==> FieldOf(p[i]) != FieldOf(p[j])
  }

  /** `pending_changes.get(field)`. */
  function Entry(p: seq<Change>, f: Field): (r: Option<Change>)
    ensures r.Some? ==> FieldOf(r.value) == f && r.value in p
    ensures r.None? ==> forall i :: 0 <= i < |p| ==> FieldOf(p[i]) != f
  {
    if p == [] then None
    else if FieldOf(p[|p| - 1]) == f then Some(p[|p| - 1])
    else Entry(p[..|p| - 1], f)
  }

  /** The position of `f` in the dictionary, or `|p|` when it is absent. */
  function IndexOf(p: seq<Change>, f: Field): (k: nat)
    ensures k <= |p|
    ensures k < |p| ==> FieldOf(p[k]) == f
    ensures forall i :: 0 <= i < k ==> FieldOf(p[i]) != f
  {
    if p == [] then 0
    else if FieldOf(p[0]) == f then 0
    else 1 + IndexOf(p[1..], f)
  }

  /** `pending_changes[field] = value`: a key already present keeps its place and takes
      the new value; a new key goes at the end. */
  function Upsert(p: seq<Change>, c: Change): seq<Change> {
    var k := IndexOf(p, FieldOf(c));
    if k == |p| then p + [c] else p[k := c]
  }

  /** Scheduling adds the new change and drops at most the one it replaces. */
  lemma UpsertElements(p: seq<Change>, c: Change)
    ensures forall x :: x in Upsert(p, c) ==> x == c || x in p
    ensures c in Upsert(p, c)
  {
    var k := IndexOf(p, FieldOf(c));
    if k < |p| {
      assert Upsert(p, c) == p[k := c] && p[k := c][k] == c;
      forall x | x in p[k := c]
        ensures x == c || x in p
      {
        var j :| 0 <= j < |p| && p[k := c][j] == x;
        if j != k {
          assert x == p[j];
        }
      }
    } else {
      assert Upsert(p, c) == p + [c];
      assert (p + [c])[|p|] == c;
    }
  }

  /** The latest value wins: after an update the field's slot holds the new value, every
      other field keeps its entry, and the dictionary still has each key once. */
  lemma UpsertLatestWins(p: seq<Change>, c: Change)
    requires Distinct(p)
    ensures Distinct(Upsert(p, c))
    ensures Entry(Upsert(p, c), FieldOf(c)) == Some(c)
    ensures forall f :: f != FieldOf(c) ==> Entry(Upsert(p, c), f) == Entry(p, f)
  {
    UpsertDistinct(p, c);
    var r := Upsert(p, c);
    EntryByPosition(r);
    assert r[IndexOf(p, FieldOf(c))] == c;
    forall f | f != FieldOf(c)
      ensures Entry(r, f) == Entry(p, f)
    {
      UpsertOther(p, c, f);
    }
  }

  lemma UpsertDistinct(p: seq<Change>, c: Change)
    requires Distinct(p)
    ensures Distinct(Upsert(p, c))
  {
    var r := Upsert(p, c);
    var k := IndexOf(p, FieldOf(c));
    assert forall i :: 0 <= i < |r| ==> FieldOf(r[i]) == FieldOf(if i == k then c else p[i]);
  }

  lemma UpsertOther(p: seq<Change>, c: Change, f: Field)
    requires Distinct(p) && Distinct(Upsert(p, c)) && f != FieldOf(c)
    ensures Entry(Upsert(p, c), f) == Entry(p, f)
  {
    var r := Upsert(p, c);
    var k := IndexOf(p, FieldOf(c));
    assert forall i :: 0 <= i < |p| && i != k ==> r[i] == p[i];
    if Entry(p, f).Some? {
      UpsertOtherPresent(p, c, f, k);
    } else {
      forall i | 0 <= i < |r|
        ensures FieldOf(r[i]) != f
      {
        if i == k || i == |p| {
          assert r[i] == c;
        }
      }
    }
  }

  lemma UpsertOtherPresent(p: seq<Change>, c: Change, f: Field, k: nat)
    requires Distinct(p) && Distinct(Upsert(p, c)) && f != FieldOf(c)
    requires k == IndexOf(p, FieldOf(c)) && Entry(p, f).Some?
    requires forall i :: 0 <= i < |p| && i != k ==> Upsert(p, c)[i] == p[i]
    ensures Entry(Upsert(p, c), f) == Entry(p, f)
  {
    var r := Upsert(p, c);
    EntryByPosition(p);
    var i :| 0 <= i < |p| && p[i] == Entry(p, f).value;
    assert i != k && r[i] == p[i];
    EntryByPosition(r);
  }

  /** In a dictionary each present field's entry is the element carrying that field. */
  lemma {:induction false} EntryByPosition(p: seq<Change>)
    requires Distinct(p)
    ensures forall i :: 0 <= i < |p| ==> Entry(p, FieldOf(p[i])) == Some(p[i])
  {
    if p != [] {
      var q := p[..|p| - 1];
      EntryByPosition(q);
      forall i | 0 <= i < |p|
        ensures Entry(p, FieldOf(p[i])) == Some(p[i])
      {
        if i < |p| - 1 {
          assert q[i] == p[i];
        }
      }
    }
  }

  // ---------------------------------------------------------------------------------------
  // Applying the pending changes

  /** Whether writing `c` may change the tag `(ifd, tag)`: the two date tags, the two
      caption tags, or anything in the GPS IFD. */
  predicate Touches(c: Change, ifd: Ifd, tag: Tag) {
    match c
    case DateChange(_) => (ifd, tag) in DateTags
    case CaptionChange(_) => (ifd, tag) in CaptionTags
    case LocationChange(_) => ifd == Gps
  }

  /** One Tk writer call; `None` where it raises. */
  function ApplyOneTk(d: IfdMap, c: Change): (r: Option<IfdMap>)
    ensures r.Some? ==> forall ifd, tag :: !Touches(c, ifd, tag) ==> Lookup(r.value, ifd, tag) == Lookup(d, ifd, tag)
  {
    match c
    case DateChange(date) => Some(DateTk(d, date))
    case CaptionChange(caption) => Some(CaptionTk(d, caption))
    case LocationChange(location) => LocationTk(d, location)
  }

  /** One Qt writer call; the pending date is always a `datetime` or `None`. */
  function ApplyOneQt(d: IfdMap, c: Change): (e: IfdMap)
    ensures forall ifd, tag :: !Touches(c, ifd, tag) ==> Lookup(e, ifd, tag) == Lookup(d, ifd, tag)
  {
    match c
    case DateChange(date) => DateQt(d, if date.Some? then Some(At(date.value)) else None, NoFuzzy)
    case CaptionChange(caption) => CaptionQt(d, caption)
    case LocationChange(location) => LocationQt(d, location)
  }

  /** The fuzzy parser is never reached from a pending change, which holds a `datetime`. */
  function NoFuzzy(s: string): Option<Stamp> {
    None
  }

  /** The Tk save loop: each entry in order; the first writer that raises aborts it. */
  function ApplyTk(d: IfdMap, p: seq<Change>): Option<IfdMap> {
    if p == [] then Some(d)
    else
      var e :- ApplyTk(d, p[..|p| - 1]);
      ApplyOneTk(e, p[|p| - 1])
  }

  /** The Qt save loop: each entry in order. */
  function ApplyQt(d: IfdMap, p: seq<Change>): IfdMap {
    if p == [] then d else ApplyOneQt(ApplyQt(d, p[..|p| - 1]), p[|p| - 1])
  }

  /** Nothing else changes: a save leaves every tag that none of its entries touches as it
      was. */
  lemma {:induction false} ApplyQtFrame(d: IfdMap, p: seq<Change>, ifd: Ifd, tag: Tag)
    requires forall i :: 0 <= i < |p| ==> !Touches(p[i], ifd, tag)
    ensures Lookup(ApplyQt(d, p), ifd, tag) == Lookup(d, ifd, tag)
  {
    if p != [] {
      ApplyQtFrame(d, p[..|p| - 1], ifd, tag);
    }
  }

  lemma {:induction false} ApplyTkFrame(d: IfdMap, p: seq<Change>, ifd: Ifd, tag: Tag)
    requires forall i :: 0 <= i < |p| ==> !Touches(p[i], ifd, tag)
    ensures ApplyTk(d, p).Some? ==> Lookup(ApplyTk(d, p).value, ifd, tag) == Lookup(d, ifd, tag)
  {
    if p != [] {
      ApplyTkFrame(d, p[..|p| - 1], ifd, tag);
    }
  }

  /** A change the Tk writers accept: anything but a location lacking a coordinate. */
  predicate HasCoordinates(c: Change) {
    c.LocationChange? && c.location.Some? ==> c.location.value.latitude.Some? && c.location.value.longitude.Some?
  }

  /** One Tk writer call raises exactly on a location lacking a coordinate. */
  lemma ApplyOneTkFails(d: IfdMap, c: Change)
    ensures ApplyOneTk(d, c).None? <==> !HasCoordinates(c)
  {
  }

  /** The Tk save fails exactly when it holds a location without both coordinates. */
  lemma {:induction false} ApplyTkFails(d: IfdMap, p: seq<Change>)
    ensures ApplyTk(d, p).None? <==> exists i :: 0 <= i < |p| && !HasCoordinates(p[i])
  {
    if p != [] {
      var q := p[..|p| - 1];
      var c := p[|p| - 1];
      ApplyTkFails(d, q);
      assert forall i :: 0 <= i < |q| ==> q[i] == p[i];
      if ApplyTk(d, q).None? {
        assert ApplyTk(d, p).None?;
        var i :| 0 <= i < |q| && !HasCoordinates(q[i]);
        assert !HasCoordinates(p[i]);
      } else {
        ApplyOneTkFails(ApplyTk(d, q).value, c);
        assert ApplyTk(d, p) == ApplyOneTk(ApplyTk(d, q).value, c);
        assert HasCoordinates(c) ==> forall i :: 0 <= i < |p| ==> HasCoordinates(p[i]);
      }
    }
  }

  /** The date tags after a Qt save depend only on the pending date, not on the other
      entries or on where the date sits among them. */
  lemma {:induction false} ApplyQtDate(d: IfdMap, p: seq<Change>, date: Option<Stamp>, ifd: Ifd, tag: Tag)
    requires Distinct(p) && Entry(p, DateField) == Some(DateChange(date))
    requires (ifd, tag) in DateTags
    ensures Lookup(ApplyQt(d, p), ifd, tag)
      == Lookup(DateQt(d, if date.Some? then Some(At(date.value)) else None, NoFuzzy), ifd, tag)
  {
    var q := p[..|p| - 1];
    var c := p[|p| - 1];
    var input := if date.Some? then Some(At(date.value)) else None;
    var before := ApplyQt(d, q);
    assert ApplyQt(d, p) == ApplyOneQt(before, c);
    if FieldOf(c) == DateField {
      assert c == DateChange(date);
      forall i | 0 <= i < |q|
        ensures !Touches(q[i], ifd, tag)
      {
        assert FieldOf(q[i]) != DateField;
        OnlyDateTouchesDateTags(q[i], ifd, tag);
      }
      ApplyQtFrame(d, q, ifd, tag);
      DateQtLocal(before, d, input, ifd, tag);
    } else {
      assert Distinct(q);
      ApplyQtDate(d, q, date, ifd, tag);
      OnlyDateTouchesDateTags(c, ifd, tag);
    }
  }

  /** The caption and location writers leave the date tags alone. */
  lemma OnlyDateTouchesDateTags(c: Change, ifd: Ifd, tag: Tag)
    requires FieldOf(c) != DateField && (ifd, tag) in DateTags
    ensures !Touches(c, ifd, tag)
  {
    assert ifd != Gps;
    assert tag == DateTimeOriginal || tag == DateTimeTag;
  }

  /** The date writer's effect on the date tags does not depend on the dictionary it is
      given. */
  lemma DateQtLocal(d1: IfdMap, d2: IfdMap, date: Option<DateInput>, ifd: Ifd, tag: Tag)
    requires date.None? || date.value.At?
    requires (ifd, tag) in DateTags
    ensures Lookup(DateQt(d1, date, NoFuzzy), ifd, tag) == Lookup(DateQt(d2, date, NoFuzzy), ifd, tag)
  {
  }

  /** The same for a Tk save that succeeds. */
  lemma {:induction false} ApplyTkDate(d: IfdMap, p: seq<Change>, date: Option<Stamp>, ifd: Ifd, tag: Tag)
    requires Distinct(p) && Entry(p, DateField) == Some(DateChange(date)) && ApplyTk(d, p).Some?
    requires (ifd, tag) in DateTags
    ensures Lookup(ApplyTk(d, p).value, ifd, tag) == Lookup(DateTk(d, date), ifd, tag)
  {
    var q := p[..|p| - 1];
    var c := p[|p| - 1];
    var before := ApplyTk(d, q);
    assert before.Some? && ApplyTk(d, p) == ApplyOneTk(before.value, c);
    if FieldOf(c) == DateField {
      assert c == DateChange(date);
      forall i | 0 <= i < |q|
        ensures !Touches(q[i], ifd, tag)
      {
        assert FieldOf(q[i]) != DateField;
        OnlyDateTouchesDateTags(q[i], ifd, tag);
      }
      ApplyTkFrame(d, q, ifd, tag);
      DateTkLocal(before.value, d, date, ifd, tag);
    } else {
      assert Distinct(q);
      ApplyTkDate(d, q, date, ifd, tag);
      OnlyDateTouchesDateTags(c, ifd, tag);
    }
  }

  lemma DateTkLocal(d1: IfdMap, d2: IfdMap, date: Option<Stamp>, ifd: Ifd, tag: Tag)
    requires (ifd, tag) in DateTags
    ensures Lookup(DateTk(d1, date), ifd, tag) == Lookup(DateTk(d2, date), ifd, tag)
  {
  }

  /** The Qt `save_date_immediately` as it ends on disk: whatever else is pending, the
      date just chosen is what the Qt reader then shows. */
  lemma SavedDateReadsBack(d: IfdMap, p: seq<Change>, t: Stamp)
    requires Distinct(p) && t.year >= 1000
    ensures LoadDateQt(ApplyQt(d, Upsert(p, DateChange(Some(t))))) == Some(LongDate(t))
  {
    var r := Upsert(p, DateChange(Some(t)));
    UpsertLatestWins(p, DateChange(Some(t)));
    ApplyQtDate(d, r, Some(t), ExifSub, DateTimeOriginal);
    DateRoundTripQt(d, At(t), NoFuzzy);
    var saved := DateQt(d, Some(At(t)), NoFuzzy);
    assert Lookup(ApplyQt(d, r), ExifSub, DateTimeOriginal) == Lookup(saved, ExifSub, DateTimeOriginal);
  }

  // ---------------------------------------------------------------------------------------
  // The loops of `save_pending_metadata`

  /** The Qt loop body: the writer for one pending entry. */
  method WriteQt(exif: ExifDict, c: Change)
    modifies exif
    ensures exif.ifds == ApplyOneQt(old(exif.ifds), c)
  {
    match c {
      case DateChange(date) =>
        exif.SaveDateQt(if date.Some? then Some(At(date.value)) else None, NoFuzzy);
      case CaptionChange(caption) =>
        exif.SaveCaptionQt(caption);
      case LocationChange(location) =>
        exif.SaveLocationQt(location);
    }
  }

  /** `for field_type, value in self.pending_changes.items()` in the Qt editor: each entry
      handed to its writer, in dictionary order. */
  method ApplyPendingQt(exif: ExifDict, p: seq<Change>)
    modifies exif
    ensures exif.ifds == ApplyQt(old(exif.ifds), p)
  {
    ghost var d := exif.ifds;
    var i := 0;
    while i < |p|
      invariant 0 <= i <= |p|
      invariant exif.ifds == ApplyQt(d, p[..i])
    {
      ApplyQtNext(d, p, i);
      WriteQt(exif, p[i]);
      i := i + 1;
    }
    assert p[..|p|] == p;
  }

  /** The Tk loop body: the writer for one pending entry, `false` where it raises. */
  method WriteTk(exif: ExifDict, c: Change) returns (ok: bool)
    modifies exif
    ensures ok <==> ApplyOneTk(old(exif.ifds), c).Some?
    ensures ok ==> exif.ifds == ApplyOneTk(old(exif.ifds), c).value
  {
    match c {
      case DateChange(date) =>
        exif.SaveDateTk(date);
        ok := true;
      case CaptionChange(caption) =>
        exif.SaveCaptionTk(caption);
        ok := true;
      case LocationChange(location) =>
        ok := exif.SaveLocationTk(location);
    }
  }

  /** The same loop in the Tk editor, which stops at the first writer that raises; the
      dictionary is then discarded, so nothing is promised about it. */
  method ApplyPendingTk(exif: ExifDict, p: seq<Change>) returns (ok: bool)
    modifies exif
    ensures ok <==> ApplyTk(old(exif.ifds), p).Some?
    ensures ok ==> exif.ifds == ApplyTk(old(exif.ifds), p).value
  {
    ghost var d := exif.ifds;
    var i := 0;
    while i < |p|
      invariant 0 <= i <= |p|
      invariant ApplyTk(d, p[..i]) == Some(exif.ifds)
    {
      ApplyTkNext(d, p, i, exif.ifds);
      var written := WriteTk(exif, p[i]);
      if !written {
        ApplyTkStops(d, p, i + 1);
        return false;
      }
      i := i + 1;
    }
    assert p[..|p|] == p;
    return true;
  }

  /** One more step of the Qt loop is one more writer call. */
  lemma ApplyQtNext(d: IfdMap, p: seq<Change>, i: nat)
    requires i < |p|
    ensures ApplyQt(d, p[..i + 1]) == ApplyOneQt(ApplyQt(d, p[..i]), p[i])
  {
    assert p[..i + 1][..i] == p[..i];
  }

  /** One more step of the Tk loop is one more writer call. */
  lemma ApplyTkNext(d: IfdMap, p: seq<Change>, i: nat, e: IfdMap)
    requires i < |p| && ApplyTk(d, p[..i]) == Some(e)
    ensures ApplyTk(d, p[..i + 1]) == ApplyOneTk(e, p[i])
  {
    assert p[..i + 1][..i] == p[..i];
  }

  /** Once a prefix of the entries fails, the whole save fails. */
  lemma {:induction false} ApplyTkStops(d: IfdMap, p: seq<Change>, n: nat)
    requires n <= |p| && ApplyTk(d, p[..n]).None?
    ensures ApplyTk(d, p).None?
  {
    if n < |p| {
      var q := p[..|p| - 1];
      assert q[..n] == p[..n];
      ApplyTkStops(d, q, n);
    } else {
      assert p[..n] == p;
    }
  }
}
