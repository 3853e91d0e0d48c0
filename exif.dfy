/** The EXIF side of the editors: piexif's dictionary of IFDs, the writers that put the date,
    the caption and the location into it (`save_date_to_exif`, `save_caption_to_exif`,
    `save_location_to_exif`, in the Tk and the Qt variant, which differ), and the readers
    that turn the stored date back into the text of the date field (`load_date_from_exif`).
    Tag numbers and formats follow Exif 2.3 (CIPA DC-008), sections 4.6.4 to 4.6.6. */
module Exif {
  import opened Wrappers
  import opened PyText
  import opened Calendar

  /** The IFDs of piexif's dictionary: "0th", "Exif", "GPS" and "1st". */
  datatype Ifd = Zeroth | ExifSub | Gps | First

  type Tag = int

  /** A tag's value as it sits in the dictionary: a `str`, `bytes`, a list of (numerator,
      denominator) pairs, or an integer. */
  datatype Value =
    | Text(text: string)
    | Bytes(bytes: seq<Byte>)
    | Rationals(pairs: seq<(int, int)>)
    | Number(number: int)

  type IfdMap = map<Ifd, map<Tag, Value>>

  const ImageDescription: Tag := 270
  const DateTimeTag: Tag := 306
  const DateTimeOriginal: Tag := 36867
  const UserComment: Tag := 37510
  const GPSLatitudeRef: Tag := 1
  const GPSLatitude: Tag := 2
  const GPSLongitudeRef: Tag := 3
  const GPSLongitude: Tag := 4

  /** The 8-byte character-code header "UNICODE\0" that the editors put before the UTF-8
      caption in UserComment. */
  const UnicodePrefix: seq<Byte> := [0x55, 0x4E, 0x49, 0x43, 0x4F, 0x44, 0x45, 0x00]

  const DateTags: set<(Ifd, Tag)> := {(ExifSub, DateTimeOriginal), (Zeroth, DateTimeTag)}
  const CaptionTags: set<(Ifd, Tag)> := {(Zeroth, ImageDescription), (ExifSub, UserComment)}
  const GpsTags: set<(Ifd, Tag)> :=
    {(Gps, GPSLatitude), (Gps, GPSLatitudeRef), (Gps, GPSLongitude), (Gps, GPSLongitudeRef)}

  /** `exif_dict.get(ifd, {}).get(tag)`. */
  function Lookup(d: IfdMap, ifd: Ifd, tag: Tag): Option<Value> {
    if ifd in d && tag in d[ifd] then Some(d[ifd][tag]) else None
  }

  /** Every tag outside `touched` has the same value (or absence) in `d` and `e`. */
  ghost predicate SameOutside(d: IfdMap, e: IfdMap, touched: set<(Ifd, Tag)>) {
    forall ifd: Ifd, tag: Tag :: (ifd, tag) !in touched ==> Lookup(d, ifd, tag) == Lookup(e, ifd, tag)
  }

  /** Every IFD other than `ifd` is the same in `d` and `e`, present or absent. */
  ghost predicate OtherIfdsSame(d: IfdMap, e: IfdMap, ifd: Ifd) {
    forall i :: i != ifd ==> (i in d <==> i in e) && (i in d ==> d[i] == e[i])
  }

  /** `exif_dict.setdefault(ifd, {})[tag] = v`. */
  function Put(d: IfdMap, ifd: Ifd, tag: Tag, v: Value): (e: IfdMap)
    ensures Lookup(e, ifd, tag) == Some(v)
    ensures SameOutside(d, e, {(ifd, tag)})
    ensures e.Keys == d.Keys + {ifd}
  {
    d[ifd := (if ifd in d then d[ifd] else map[])[tag := v]]
  }

  /** `exif_dict[ifd].pop(tag, None)` when the IFD exists. */
  function Pop(d: IfdMap, ifd: Ifd, tag: Tag): (e: IfdMap)
    ensures Lookup(e, ifd, tag) == None
    ensures SameOutside(d, e, {(ifd, tag)})
    ensures e.Keys == d.Keys
  {
    if ifd in d then d[ifd := d[ifd] - {tag}] else d
  }

  // ---------------------------------------------------------------------------------------
  // Date

  /** Tk `save_date_to_exif`: `None` removes DateTimeOriginal and DateTime; a date is
      written to both, as the same "YYYY:MM:DD HH:MM:SS" `str`, creating missing IFDs. */
  function DateTk(d: IfdMap, date: Option<Stamp>): (e: IfdMap)
    ensures SameOutside(d, e, DateTags)
    ensures date.None? ==>
      && Lookup(e, ExifSub, DateTimeOriginal) == None && Lookup(e, Zeroth, DateTimeTag) == None
      && e.Keys == d.Keys
    ensures date.Some? ==>
      && Lookup(e, ExifSub, DateTimeOriginal) == Some(Text(ExifText(date.value)))
      && Lookup(e, Zeroth, DateTimeTag) == Some(Text(ExifText(date.value)))
      && e.Keys == d.Keys + {ExifSub, Zeroth}
  {
    match date
    case None => Pop(Pop(d, ExifSub, DateTimeOriginal), Zeroth, DateTimeTag)
    case Some(t) =>
      var s := ExifText(t);
      Put(Put(d, ExifSub, DateTimeOriginal, Text(s)), Zeroth, DateTimeTag, Text(s))
  }

  /** What the Qt date writer accepts: a `datetime`, or a `str` that it hands to dateutil. */
  datatype DateInput = At(stamp: Stamp) | Typed(text: string)

  function Resolve(date: DateInput, fuzzy: string -> Option<Stamp>): Option<Stamp> {
    match date
    case At(t) => Some(t)
    case Typed(s) => fuzzy(s)
  }

  /** Qt `save_date_to_exif`: like the Tk writer, but the text is stored UTF-8 encoded as
      `bytes`, and a `str` the fuzzy parser rejects leaves the dictionary as it was (the
      exception is caught before anything is written). */
  function DateQt(d: IfdMap, date: Option<DateInput>, fuzzy: string -> Option<Stamp>): (e: IfdMap)
    ensures SameOutside(d, e, DateTags)
    ensures date.None? ==>
      && Lookup(e, ExifSub, DateTimeOriginal) == None && Lookup(e, Zeroth, DateTimeTag) == None
      && e.Keys == d.Keys
    ensures date.Some? && Resolve(date.value, fuzzy).Some? ==>
      var b := Utf8Encode(ExifText(Resolve(date.value, fuzzy).value));
      && Lookup(e, ExifSub, DateTimeOriginal) == Some(Bytes(b))
      && Lookup(e, Zeroth, DateTimeTag) == Some(Bytes(b))
      && e.Keys == d.Keys + {ExifSub, Zeroth}
    ensures date.Some? && Resolve(date.value, fuzzy).None? ==> e == d
  {
    match date
    case None => Pop(Pop(d, ExifSub, DateTimeOriginal), Zeroth, DateTimeTag)
    case Some(input) =>
      match Resolve(input, fuzzy)
      case None => d
      case Some(t) =>
        var b := Utf8Encode(ExifText(t));
        Put(Put(d, ExifSub, DateTimeOriginal, Bytes(b)), Zeroth, DateTimeTag, Bytes(b))
  }

  /** Python truthiness of a tag value, which the Tk reader tests first. */
  predicate Truthy(v: Value) {
    match v
    case Text(s) => s != []
    case Bytes(b) => b != []
    case Rationals(p) => p != []
    case Number(n) => n != 0
  }

  /** One step of the Tk reader on one candidate tag. */
  datatype Step = Shown(text: string) | Skip | Abort

  function TryDateTk(v: Option<Value>): (r: Step)
    ensures r.Shown? ==> exists t: Stamp :: Valid(t) && r.text == LongDate(t)
  {
    if v.None? || !Truthy(v.value) then Skip
    else
      match v.value
      case Bytes(b) =>
        (match Utf8Decode(b)
         case None => Abort
         case Some(s) =>
           match ParseExifText(s)
           case Some(t) => Shown(LongDate(t))
           case None => Skip)
      case Text(s) =>
        (match ParseExifText(s)
         case Some(t) => Shown(LongDate(t))
         case None => Skip)
      case _ => Abort
  }

  /** Tk `load_date_from_exif`: the text put into the date field, or `None` when it stays
      empty. DateTimeOriginal is tried first; when it is missing, empty or does not parse,
      DateTime is tried. Bytes that are not UTF-8, or a value that is neither `str` nor
      `bytes`, raise an error outside the per-tag handler and end the attempt. */
  function LoadDateTk(d: IfdMap): (r: Option<string>)
    ensures r.Some? ==> exists t: Stamp :: Valid(t) && r.value == LongDate(t)
    ensures Lookup(d, ExifSub, DateTimeOriginal).None? && Lookup(d, Zeroth, DateTimeTag).None? ==> r.None?
  {
    match TryDateTk(Lookup(d, ExifSub, DateTimeOriginal))
    case Shown(s) => Some(s)
    case Abort => None
    case Skip =>
      match TryDateTk(Lookup(d, Zeroth, DateTimeTag))
      case Shown(s) => Some(s)
      case _ => None
  }

  /** One tag's value as the Qt reader shows it: UTF-8 bytes in the EXIF date format. */
  function ReadDateQt(v: Value): (r: Option<string>)
    ensures r.Some? ==> v.Bytes? && exists t: Stamp :: Valid(t) && r.value == LongDate(t)
  {
    match v
    case Bytes(b) =>
      var s :- Utf8Decode(b);
      var t :- ParseExifText(s);
      Some(LongDate(t))
    case _ => None
  }

  /** Qt `load_date_from_exif`: DateTimeOriginal when it is present, otherwise DateTime.
      The value must be UTF-8 `bytes` in the EXIF format; any failure leaves the field
      empty, with no fall-back from a malformed DateTimeOriginal to DateTime. */
  function LoadDateQt(d: IfdMap): (r: Option<string>)
    ensures Lookup(d, ExifSub, DateTimeOriginal).Some? ==> r == ReadDateQt(Lookup(d, ExifSub, DateTimeOriginal).value)
  {
    match Lookup(d, ExifSub, DateTimeOriginal)
    case Some(v) => ReadDateQt(v)
    case None =>
      match Lookup(d, Zeroth, DateTimeTag)
      case Some(v) => ReadDateQt(v)
      case None => None
  }

  /** A date the Tk writer stores reads back, through the Tk reader, as the same day. */
  lemma DateRoundTripTk(d: IfdMap, t: Stamp)
    requires t.year >= 1000
    ensures LoadDateTk(DateTk(d, Some(t))) == Some(LongDate(t))
  {
    ExifTextRoundTrip(t);
    DecimalOfFourDigits(t.year);
  }

  /** A date the Qt writer stores reads back, through the Qt reader, as the same day. */
  lemma DateRoundTripQt(d: IfdMap, date: DateInput, fuzzy: string -> Option<Stamp>)
    requires Resolve(date, fuzzy).Some? && Resolve(date, fuzzy).value.year >= 1000
    ensures LoadDateQt(DateQt(d, Some(date), fuzzy)) == Some(LongDate(Resolve(date, fuzzy).value))
  {
    var t := Resolve(date, fuzzy).value;
    ExifTextRoundTrip(t);
    Utf8RoundTrip(ExifText(t));
  }

  /** Clearing the date leaves both readers with nothing to show. */
  lemma DateClearedReadsNothing(d: IfdMap, fuzzy: string -> Option<Stamp>)
    ensures LoadDateTk(DateTk(d, None)) == None
    ensures LoadDateQt(DateQt(d, None, fuzzy)) == None
  {
  }

  /** Where the two readers part: with a DateTimeOriginal that decodes but does not parse
      and a good DateTime, the Tk reader shows DateTime's date and the Qt reader shows
      nothing. */
  lemma MalformedOriginalFallback(d: IfdMap, bad: string, t: Stamp)
    requires bad != [] && ParseExifText(bad).None? && t.year >= 1000
    requires Lookup(d, ExifSub, DateTimeOriginal) == Some(Bytes(Utf8Encode(bad)))
    requires Lookup(d, Zeroth, DateTimeTag) == Some(Bytes(Utf8Encode(ExifText(t))))
    ensures LoadDateTk(d) == Some(LongDate(t))
    ensures LoadDateQt(d) == None
  {
    MalformedSkipped(bad);
    WellFormedShown(t);
  }

  // A date tag holding UTF-8 text that does not parse: Tk moves on, Qt shows nothing.
  lemma MalformedSkipped(bad: string)
    requires bad != [] && ParseExifText(bad).None?
    ensures TryDateTk(Some(Bytes(Utf8Encode(bad)))) == Skip
    ensures ReadDateQt(Bytes(Utf8Encode(bad))) == None
  {
    Utf8RoundTrip(bad);
    assert |Utf8Encode(bad)| > 0;
  }

  // A date tag holding the EXIF text of a date from year 1000 on: Tk shows that date.
  lemma WellFormedShown(t: Stamp)
    requires t.year >= 1000
    ensures TryDateTk(Some(Bytes(Utf8Encode(ExifText(t))))) == Shown(LongDate(t))
  {
    ExifTextRoundTrip(t);
    ParsedShown(ExifText(t), t);
  }

  lemma ParsedShown(text: string, t: Stamp)
    requires ParseExifText(text) == Some(t)
    ensures TryDateTk(Some(Bytes(Utf8Encode(text)))) == Shown(LongDate(t))
  {
    Utf8RoundTrip(text);
    assert text != [];
  }

  // ---------------------------------------------------------------------------------------
  // Caption

  /** Tk `save_caption_to_exif`: `None` or a blank caption removes ImageDescription and
      UserComment; otherwise ImageDescription holds the caption as a `str` and UserComment
      holds "UNICODE\0" followed by its UTF-8 bytes. */
  function CaptionTk(d: IfdMap, caption: Option<string>): (e: IfdMap)
    ensures SameOutside(d, e, CaptionTags)
    ensures caption.None? || Strip(caption.value) == [] ==>
      && Lookup(e, Zeroth, ImageDescription) == None && Lookup(e, ExifSub, UserComment) == None
      && e.Keys == d.Keys
    ensures caption.Some? && Strip(caption.value) != [] ==>
      && Lookup(e, Zeroth, ImageDescription) == Some(Text(caption.value))
      && Lookup(e, ExifSub, UserComment) == Some(Bytes(UnicodePrefix + Utf8Encode(caption.value)))
      && e.Keys == d.Keys + {Zeroth, ExifSub}
  {
    if caption.None? || Strip(caption.value) == [] then
      Pop(Pop(d, Zeroth, ImageDescription), ExifSub, UserComment)
    else
      var c := caption.value;
      Put(Put(d, Zeroth, ImageDescription, Text(c)), ExifSub, UserComment, Bytes(UnicodePrefix + Utf8Encode(c)))
  }

  /** Qt `save_caption_to_exif`: `None` removes both tags; any other caption is stripped
      and stored UTF-8 encoded in ImageDescription and, after "UNICODE\0", in
      UserComment (an all-blank caption is stored as empty). */
  function CaptionQt(d: IfdMap, caption: Option<string>): (e: IfdMap)
    ensures SameOutside(d, e, CaptionTags)
    ensures caption.None? ==>
      && Lookup(e, Zeroth, ImageDescription) == None && Lookup(e, ExifSub, UserComment) == None
      && e.Keys == d.Keys
    ensures caption.Some? ==>
      var b := Utf8Encode(Strip(caption.value));
      && Lookup(e, Zeroth, ImageDescription) == Some(Bytes(b))
      && Lookup(e, ExifSub, UserComment) == Some(Bytes(UnicodePrefix + b))
      && e.Keys == d.Keys + {Zeroth, ExifSub}
  {
    match caption
    case None => Pop(Pop(d, Zeroth, ImageDescription), ExifSub, UserComment)
    case Some(c) =>
      var b := Utf8Encode(Strip(c));
      Put(Put(d, Zeroth, ImageDescription, Bytes(b)), ExifSub, UserComment, Bytes(UnicodePrefix + b))
  }

  /** The caption written to UserComment comes back by dropping the 8-byte header and
      decoding the rest. */
  lemma UserCommentRoundTrip(caption: string)
    ensures var b := UnicodePrefix + Utf8Encode(caption);
      b[..8] == UnicodePrefix && Utf8Decode(b[8..]) == Some(caption)
  {
    var b := UnicodePrefix + Utf8Encode(caption);
    assert b[8..] == Utf8Encode(caption);
    Utf8RoundTrip(caption);
  }

  // ---------------------------------------------------------------------------------------
  // Location

  /** The `location_data` dictionary: an address and its coordinates, which may be missing
      (`None` covers both a missing key and a `None` value). */
  datatype Location = Location(address: string, latitude: Option<real>, longitude: Option<real>)

  function Abs(x: real): (r: real)
    ensures r >= 0.0 && (r == x || r == -x)
  {
    if x < 0.0 then -x else x
  }

  /** GPSLatitudeRef: "N" for latitudes >= 0, "S" below. */
  function LatitudeRef(lat: real): (r: string)
    ensures r == "N" <==> lat >= 0.0
    ensures r == "N" || r == "S"
  {
    if lat >= 0.0 then "N" else "S"
  }

  /** GPSLongitudeRef: "E" for longitudes >= 0, "W" below. */
  function LongitudeRef(lon: real): (r: string)
    ensures r == "E" <==> lon >= 0.0
    ensures r == "E" || r == "W"
  {
    if lon >= 0.0 then "E" else "W"
  }

  /** `decimal_to_gps`, stored as [(degrees, 1), (minutes, 1), (int(seconds * 1000), 1000)]:
      whole degrees, whole minutes and thousandths of a second, each truncated. */
  function DmsRationals(x: real): (r: seq<(int, int)>)
    requires x >= 0.0
    ensures |r| == 3 && r[0].1 == 1 && r[1].1 == 1 && r[2].1 == 1000
    ensures 0 <= r[1].0 < 60 && 0 <= r[2].0 < 60000
  {
    var degrees := x.Floor;
    var minutesFloat := (x - degrees as real) * 60.0;
    var minutes := minutesFloat.Floor;
    var seconds := (minutesFloat - minutes as real) * 60.0;
    [(degrees, 1), (minutes, 1), ((seconds * 1000.0).Floor, 1000)]
  }

  /** `gps_to_decimal` (Qt editor): degrees + minutes/60 + seconds/3600, negated for "S"
      and "W"; a zero denominator raises (`None`). */
  function GpsToDecimal(pairs: seq<(int, int)>, ref: string): (r: Option<real>)
    ensures r.Some? <==> |pairs| >= 3 && pairs[0].1 != 0 && pairs[1].1 != 0 && pairs[2].1 != 0
    ensures r.Some? && (forall i :: 0 <= i < 3 ==> pairs[i].0 >= 0 && pairs[i].1 > 0) ==>
      if ref == "S" || ref == "W" then r.value <= 0.0 else r.value >= 0.0
  {
    if |pairs| < 3 || pairs[0].1 == 0 || pairs[1].1 == 0 || pairs[2].1 == 0 then None
    else
      var degrees := pairs[0].0 as real / pairs[0].1 as real;
      var minutes := pairs[1].0 as real / pairs[1].1 as real;
      var seconds := pairs[2].0 as real / pairs[2].1 as real;
      var v := degrees + minutes / 60.0 + seconds / 3600.0;
      Some(if ref == "S" || ref == "W" then -v else v)
  }

  /** A non-negative coordinate written as degrees, minutes and thousandths of a second
      reads back at most 1/3600000 of a degree (a thousandth of a second) below it. */
  lemma DmsBelow(x: real)
    requires x >= 0.0
    ensures var p := DmsRationals(x);
      var v := p[0].0 as real + p[1].0 as real / 60.0 + p[2].0 as real / 3600000.0;
      v <= x < v + 1.0 / 3600000.0
  {
    var degrees := x.Floor;
    var minutesFloat := (x - degrees as real) * 60.0;
    var minutes := minutesFloat.Floor;
    var seconds := (minutesFloat - minutes as real) * 60.0;
    var ms := (seconds * 1000.0).Floor;
    assert x == degrees as real + minutes as real / 60.0 + seconds * 1000.0 / 3600000.0;
    assert ms as real <= seconds * 1000.0 < ms as real + 1.0;
  }

  /** Reading back what the writers store for a coordinate gives it again to within a
      thousandth of an arc second, with the sign restored from the reference letter. */
  lemma CoordinateRoundTrip(c: real, latitude: bool)
    ensures var ref := if latitude then LatitudeRef(c) else LongitudeRef(c);
      var r := GpsToDecimal(DmsRationals(Abs(c)), ref);
      r.Some? && -1.0 / 3600000.0 < c - r.value < 1.0 / 3600000.0
  {
    DmsBelow(Abs(c));
  }

  /** The four GPS tags for a coordinate pair, put into the (possibly new) GPS IFD. */
  function PutCoordinates(d: IfdMap, lat: real, lon: real): (e: IfdMap)
    ensures Lookup(e, Gps, GPSLatitude) == Some(Rationals(DmsRationals(Abs(lat))))
    ensures Lookup(e, Gps, GPSLatitudeRef) == Some(Text(LatitudeRef(lat)))
    ensures Lookup(e, Gps, GPSLongitude) == Some(Rationals(DmsRationals(Abs(lon))))
    ensures Lookup(e, Gps, GPSLongitudeRef) == Some(Text(LongitudeRef(lon)))
    ensures SameOutside(d, e, GpsTags)
    ensures e.Keys == d.Keys + {Gps}
  {
    var d1 := Put(d, Gps, GPSLatitude, Rationals(DmsRationals(Abs(lat))));
    var d2 := Put(d1, Gps, GPSLatitudeRef, Text(LatitudeRef(lat)));
    var d3 := Put(d2, Gps, GPSLongitude, Rationals(DmsRationals(Abs(lon))));
    Put(d3, Gps, GPSLongitudeRef, Text(LongitudeRef(lon)))
  }

  /** Tk `save_location_to_exif`: `None` deletes the whole GPS IFD; a location writes the
      coordinates and their N/S and E/W letters. A location without both coordinates raises
      (`None`), which aborts the save it is part of. */
  function LocationTk(d: IfdMap, location: Option<Location>): (r: Option<IfdMap>)
    ensures location.None? ==> r.Some? && Gps !in r.value && OtherIfdsSame(d, r.value, Gps)
    ensures location.Some? ==>
      (r.Some? <==> location.value.latitude.Some? && location.value.longitude.Some?)
    ensures location.Some? && r.Some? ==>
      r.value == PutCoordinates(d, location.value.latitude.value, location.value.longitude.value)
  {
    match location
    case None => Some(d - {Gps})
    case Some(l) =>
      if l.latitude.None? || l.longitude.None? then None
      else Some(PutCoordinates(d, l.latitude.value, l.longitude.value))
  }

  /** Qt `save_location_to_exif`: `None` deletes the GPS IFD; a location is written only
      when it has both coordinates, and is otherwise ignored. */
  function LocationQt(d: IfdMap, location: Option<Location>): (e: IfdMap)
    ensures location.None? ==> Gps !in e && OtherIfdsSame(d, e, Gps)
    ensures location.Some? && location.value.latitude.Some? && location.value.longitude.Some? ==>
      e == PutCoordinates(d, location.value.latitude.value, location.value.longitude.value)
    ensures location.Some? && (location.value.latitude.None? || location.value.longitude.None?) ==>
      e == d
  {
    match location
    case None => d - {Gps}
    case Some(l) =>
      if l.latitude.Some? && l.longitude.Some? then PutCoordinates(d, l.latitude.value, l.longitude.value)
      else d
  }

  /** The two writers agree wherever the Tk one does not raise. */
  lemma LocationWritersAgree(d: IfdMap, location: Option<Location>)
    ensures LocationTk(d, location).Some? ==> LocationTk(d, location).value == LocationQt(d, location)
  {
  }

  // ---------------------------------------------------------------------------------------
  // The dictionary, updated in place

  /** piexif's EXIF dictionary for one photo, which the `save_*_to_exif` methods update in
      place. */
  class ExifDict {
    var ifds: IfdMap

    constructor (d: IfdMap)
      ensures ifds == d
    {
      ifds := d;
    }

    /** `exif_dict[ifd].pop(tag, None)` when the IFD exists (Tk). */
    method PopTag(ifd: Ifd, tag: Tag)
      modifies this
      ensures ifds == Pop(old(ifds), ifd, tag)
    {
      if ifd in ifds {
        ifds := ifds[ifd := ifds[ifd] - {tag}];
      }
    }

    /** `del exif_dict[ifd][tag]` when both exist (Qt). */
    method DeleteTag(ifd: Ifd, tag: Tag)
      modifies this
      ensures ifds == Pop(old(ifds), ifd, tag)
    {
      if ifd in ifds && tag in ifds[ifd] {
        ifds := ifds[ifd := ifds[ifd] - {tag}];
      } else if ifd in ifds {
        assert ifds[ifd] - {tag} == ifds[ifd];
        assert ifds[ifd := ifds[ifd]] == ifds;
      }
    }

    /** `if ifd not in exif_dict: exif_dict[ifd] = {}`, then `exif_dict[ifd][tag] = v`. */
    method SetTag(ifd: Ifd, tag: Tag, v: Value)
      modifies this
      ensures ifds == Put(old(ifds), ifd, tag, v)
    {
      if ifd !in ifds {
        ifds := ifds[ifd := map[]];
      }
      ifds := ifds[ifd := ifds[ifd][tag := v]];
    }

    method SaveDateTk(date: Option<Stamp>)
      modifies this
      ensures ifds == DateTk(old(ifds), date)
    {
      if date.None? {
        PopTag(ExifSub, DateTimeOriginal);
        PopTag(Zeroth, DateTimeTag);
      } else {
        var s := ExifText(date.value);
        SetTag(ExifSub, DateTimeOriginal, Text(s));
        SetTag(Zeroth, DateTimeTag, Text(s));
      }
    }

    method SaveDateQt(date: Option<DateInput>, fuzzy: string -> Option<Stamp>)
      modifies this
      ensures ifds == DateQt(old(ifds), date, fuzzy)
    {
      if date.None? {
        DeleteTag(ExifSub, DateTimeOriginal);
        DeleteTag(Zeroth, DateTimeTag);
      } else {
        var parsed := Resolve(date.value, fuzzy);
        if parsed.Some? {
          var b := Utf8Encode(ExifText(parsed.value));
          SetTag(ExifSub, DateTimeOriginal, Bytes(b));
          SetTag(Zeroth, DateTimeTag, Bytes(b));
        }
      }
    }

    method SaveCaptionTk(caption: Option<string>)
      modifies this
      ensures ifds == CaptionTk(old(ifds), caption)
    {
      if caption.None? || Strip(caption.value) == [] {
        PopTag(Zeroth, ImageDescription);
        PopTag(ExifSub, UserComment);
      } else {
        SetTag(Zeroth, ImageDescription, Text(caption.value));
        SetTag(ExifSub, UserComment, Bytes(UnicodePrefix + Utf8Encode(caption.value)));
      }
    }

    method SaveCaptionQt(caption: Option<string>)
      modifies this
      ensures ifds == CaptionQt(old(ifds), caption)
    {
      if caption.None? {
        DeleteTag(Zeroth, ImageDescription);
        DeleteTag(ExifSub, UserComment);
      } else {
        var b := Utf8Encode(Strip(caption.value));
        SetTag(Zeroth, ImageDescription, Bytes(b));
        SetTag(ExifSub, UserComment, Bytes(UnicodePrefix + b));
      }
    }

    /** Returns false where the Tk writer raises; the GPS IFD it creates first is then the
        only change, and the caller discards the dictionary. */
    method SaveLocationTk(location: Option<Location>) returns (ok: bool)
      modifies this
      ensures ok <==> LocationTk(old(ifds), location).Some?
      ensures ok ==> ifds == LocationTk(old(ifds), location).value
    {
      if location.None? {
        if Gps in ifds {
          ifds := ifds - {Gps};
        }
        return true;
      }
      ghost var d0 := ifds;
      if Gps !in ifds {
        ifds := ifds[Gps := map[]];
      }
      var l := location.value;
      if l.latitude.None? || l.longitude.None? {
        return false;
      }
      SameCoordinatesOnNewIfd(d0, l.latitude.value, l.longitude.value);
      SetCoordinates(l.latitude.value, l.longitude.value);
      return true;
    }

    method SaveLocationQt(location: Option<Location>)
      modifies this
      ensures ifds == LocationQt(old(ifds), location)
    {
      if location.None? {
        if Gps in ifds {
          ifds := ifds - {Gps};
        }
      } else if location.value.latitude.Some? && location.value.longitude.Some? {
        ghost var d0 := ifds;
        if Gps !in ifds {
          ifds := ifds[Gps := map[]];
        }
        SameCoordinatesOnNewIfd(d0, location.value.latitude.value, location.value.longitude.value);
        SetCoordinates(location.value.latitude.value, location.value.longitude.value);
      }
    }

    /** The four GPS assignments of both writers, on an existing GPS IFD. */
    method SetCoordinates(lat: real, lon: real)
      modifies this
      requires Gps in ifds
      ensures ifds == PutCoordinates(old(ifds), lat, lon)
    {
      SetTag(Gps, GPSLatitude, Rationals(DmsRationals(Abs(lat))));
      SetTag(Gps, GPSLatitudeRef, Text(LatitudeRef(lat)));
      SetTag(Gps, GPSLongitude, Rationals(DmsRationals(Abs(lon))));
      SetTag(Gps, GPSLongitudeRef, Text(LongitudeRef(lon)));
    }
  }

  /** Creating the empty GPS IFD first makes no difference to the coordinates written. */
  lemma SameCoordinatesOnNewIfd(d: IfdMap, lat: real, lon: real)
    ensures Gps !in d ==> PutCoordinates(d[Gps := map[]], lat, lon) == PutCoordinates(d, lat, lon)
  {
    if Gps !in d {
      var v := Rationals(DmsRationals(Abs(lat)));
      assert Put(d[Gps := map[]], Gps, GPSLatitude, v) == Put(d, Gps, GPSLatitude, v);
    }
  }
}
