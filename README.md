# Photo metadata editor: a verified model of its core

The photo-scan processor has two desktop front ends for editing the date, caption and
location of scanned photos. `photo_metadata_editor.py` uses Tk and
`photo_metadata_editor_qt.py` uses Qt. This project models, in Dafny, the parts of both that
have behaviour worth stating:

- **The heuristic date parser** (`date_parser.dfy`, resting on `calendar.dfy` and
  `py_text.dfy`). This is `parse_date_with_preview` and the two `parse_natural_date`
  variants. Ordered rules for short digit strings come first, then a two-part "A/B" / "A-B"
  rule, then dateutil's fuzzy parser. The fuzzy parser is a function parameter, and the
  current year and month are parameters too. `calendar.dfy` holds the validity rules of
  `datetime(...)` and the `strftime`/`strptime` formats the editors use.
- **The EXIF writers and date readers** (`exif.dfy`). piexif's dictionary is a map from IFD
  to tag to value. `ExifDict` is a class whose methods update it in place, as the
  `save_*_to_exif` methods do, in both the Tk and the Qt variant. Each method is specified
  by a pure function; the round trips and "nothing else changes" are lemmas about those
  functions. Tag numbers, the date format, the UserComment header and the GPS reference
  letters follow Exif 2.3 (CIPA DC-008), sections 4.6.4 to 4.6.6.
- **`pending_changes` and the save loop** (`pending.dfy`). The dictionary of pending
  edits keeps one slot per field, in insertion order. `save_pending_metadata` applies the
  entries in order; the Tk loop stops at the first writer that raises.
- **The Qt two-tier image cache** (`image_cache.dfy`). It is a class with an original tier
  of at most 10 entries and a scaled tier of at most 20, both in least-recently-used order.
  Images are abstract handles together with a set of closed handles.
- **The Qt session** (`qt_editor.dfy`). This covers debounced navigation with an explicit
  clock, bounded moves that flush pending changes first, the save guards, and the
  copy-from-previous snapshot.
- **The Tk session** (`tk_editor.dfy`). This covers pending changes and their save, moving
  between photos, and the location-suggestion list with its wrap-around highlight.

Each editor is a class (`QtEditor.Editor`, `TkEditor.Editor`) whose fields are the window
attributes the logic reads and writes. Each event handler is a method. The method's
postcondition says that the new state is a pure function of the old one
(`State() == Navigate(old(State()), ...)`) and that the class invariant still holds.
Lemmas then state what those functions promise.

## Model

| member | source | states |
|---|---|---|
| PyText.Decimal | photo_metadata_editor.py:981 | `str(n)` (the `%Y` field) is a digit string whose value is `n`; it has one digit exactly when `n < 10` |
| PyText.DecimalOfFourDigits | photo_metadata_editor.py:981 | a year in 1000..9999 prints as four characters |
| PyText.Pad2 | photo_metadata_editor.py:981 | the `%m`/`%d`/`%H`/`%M`/`%S` rendering is two digits whose value is the number |
| PyText.Strip | photo_metadata_editor.py:659 | `str.strip()` returns a result that neither starts nor ends with whitespace and is no longer than its input |
| PyText.StripSlice | photo_metadata_editor.py:659 | what `strip()` keeps is a contiguous slice of the input, and everything removed on either side is whitespace |
| PyText.StripEmptyIffBlank | photo_metadata_editor_qt.py:1281-1284 | `not text.strip()` holds exactly when every character is whitespace (both directions) |
| PyText.StripIdempotent | photo_metadata_editor_qt.py:1421 | stripping an already stripped caption changes nothing |
| PyText.AsciiLower | photo_metadata_editor.py:659 | lowering (of ASCII letters) keeps the length, and keeps the digits and the '/' and '-' separators in place |
| PyText.ReplaceChar | photo_metadata_editor.py:737 | `replace('-', '/')` keeps the length, leaves no '-' and keeps every other character |
| PyText.Split | photo_metadata_editor.py:737 | `split('/')` gives at least one piece and no piece contains the separator |
| PyText.SplitJoin | photo_metadata_editor.py:737 | joining the pieces of `split` with the separator gives the input back |
| PyText.SplitAtOnlySeparator | photo_metadata_editor.py:737-739 | a text with exactly one separator splits into the two texts around it |
| PyText.Join | photo_metadata_editor.py:737 | no contract of its own: the inverse of `split`, used by `SplitJoin` to state that splitting loses nothing |
| PyText.PyIntOfDigits | photo_metadata_editor.py:741 | `int(s)` of a digit string is its decimal value |
| PyText.PyIntOfDecimal | photo_metadata_editor.py:741 | `int(str(n)) == n` |
| PyText.PyInt | photo_metadata_editor.py:741 | no contract of its own: `int(s)` in base 10 on the stripped text, with an optional sign and single underscores between digits; `PyIntOfDigits` and `PyIntOfDecimal` state its value |
| PyText.EncodeChar | photo_metadata_editor.py:1027 | a character's UTF-8 encoding takes 1 to 4 bytes |
| PyText.Utf8Encode | photo_metadata_editor.py:1027 | `.encode('utf-8')` gives at least one byte per character; `Utf8RoundTrip` and `Utf8OfAscii` state what it gives |
| PyText.Utf8Decode | photo_metadata_editor.py:536 | no contract of its own: strict `.decode('utf-8')`; `Utf8RoundTrip` and `DecodeFirstOfEncoded` state that it inverts `Utf8Encode` |
| PyText.Utf8RoundTrip | photo_metadata_editor.py:1027 | decoding the UTF-8 encoding of a text gives the text back |
| PyText.DecodeFirstOfEncoded | photo_metadata_editor.py:536 | the strict decoder reads an encoded character back as itself, with its length, whatever follows |
| PyText.Utf8OfAscii | photo_metadata_editor_qt.py:1400 | ASCII text (such as an EXIF date) encodes byte for byte |
| Calendar.DaysInMonth | photo_metadata_editor.py:718 | a month has 28 to 31 days, and 29 exactly for February of a leap year |
| Calendar.MakeDateTime | photo_metadata_editor.py:538 | `datetime(...)` succeeds exactly for a valid date and time, and then holds those fields |
| Calendar.MakeDate | photo_metadata_editor.py:711 | `datetime(y, m, d)` succeeds exactly for a valid date, at midnight |
| Calendar.FitsCInt | photo_metadata_editor.py:746 | no contract of its own: the C `int` range `datetime(...)` converts its arguments to; `DateParser.OverflowAborts` states what happens outside it |
| Calendar.MonthName | photo_metadata_editor.py:539 | `%B` gives a name of at least three letters with no digit or space, so the long date can be split again |
| Calendar.ParseClock | photo_metadata_editor.py:538 | the `%H:%M:%S` part accepts only hours 0-23, minutes 0-59 and seconds 0-61 |
| Calendar.ExifTextRoundTrip | photo_metadata_editor.py:981 | `strptime(strftime(t, "%Y:%m:%d %H:%M:%S"), same format) == t` for years from 1000; see also photo_metadata_editor.py:538 |
| Calendar.LongDate | photo_metadata_editor.py:539 | no contract of its own: `strftime("%B %d, %Y")`; `DateParser.PreviewShape` and the reader round trips state where it appears |
| Calendar.ExifText | photo_metadata_editor.py:981 | no contract of its own: `strftime("%Y:%m:%d %H:%M:%S")`; `ExifTextRoundTrip` states that `ParseExifText` reads it back |
| Calendar.ParseExifText | photo_metadata_editor.py:538 | `strptime(s, "%Y:%m:%d %H:%M:%S")` gives only real dates and times; `ExifTextRoundTrip` states that it inverts `ExifText` |
| DateParser.YearOnly | photo_metadata_editor.py:662-665 | rule 1 applies exactly to four digits with a value in 1900..2100, and gives 1 January of that year |
| DateParser.PartialDigits | photo_metadata_editor.py:695-732 | rule 2 matches only strings of one or two digits; `MonthRule`, `DayRule`, `TwoDigitYearRule` and `PartialDigitsShape` state what it gives |
| DateParser.TwoPart | photo_metadata_editor.py:735-758 | rule 3 matches or raises only on text holding '/' or '-', and a date it gives carries "(assumed 1st day)" or "(assumed current year)"; `TwoPartOf` states each case |
| DateParser.ParseDateWithPreview | photo_metadata_editor.py:679-772 | `parse_date_with_preview` never raises: without a date its text is "Invalid date format" or "Date out of valid range (1900-2100)"; the rule lemmas state each path |
| DateParser.Fallback | photo_metadata_editor.py:760-772 | when the fuzzy parser fails the preview is "Invalid date format"; its date is kept, previewed as the long date, exactly when the year is in 1900..2100; otherwise "Date out of valid range (1900-2100)" |
| DateParser.ParseNaturalDateTk | photo_metadata_editor.py:655-677 | any date returned has a year in 1900..2100; past the year rule, the fuzzy parser's date for the stripped, lower-cased text is returned exactly when its year is in that range |
| DateParser.ParseNaturalDateQt | photo_metadata_editor_qt.py:1245-1263 | any date returned has a year in 1900..2100; past the year rule, the fuzzy parser's date for the text as given is returned exactly when its year is in that range |
| DateParser.YearRule | photo_metadata_editor.py:662-665 | a four-digit year in 1900..2100 gives 1 January of it in all three parsers, and the preview is the bare long date; see also photo_metadata_editor.py:687-692 |
| DateParser.MonthRule | photo_metadata_editor.py:695-713 | one digit 1-9, or two digits 1-12, give the 1st of that month in the current year, noted "(assumed current year)" |
| DateParser.DayRule | photo_metadata_editor.py:714-722 | two digits 13-31 give that day of the current month, noted "(assumed current month/year)", and fall through to the fallback when the month lacks that day |
| DateParser.TwoDigitYearRule | photo_metadata_editor.py:723-732 | "00" gives 1 January 2000 and 32-99 give 1 January of 1900+n, noted "(assumed year)" |
| DateParser.TwoPartOf | photo_metadata_editor.py:735-758 | for "A/B" or "A-B": a year B in 1900..2100 gives the 1st of month A of B, except that a month A outside the C `int` range raises `OverflowError`; else a month A and a day B give that day this year; invalid dates and every other case fall through |
| DateParser.SeparatorSkipsDigitRules | photo_metadata_editor.py:694-760 | text with '/' or '-' gets the two-part rule's result, the fallback when that rule falls through, or "Invalid date format" when it raises |
| DateParser.PartialDigitsShape | photo_metadata_editor.py:695-732 | a date from the digit rules has a year in 1900..2100 or the current year, and one of the three notes |
| DateParser.TwoPartShape | photo_metadata_editor.py:735-758 | a date from the two-part rule has a year in range or the current year, and one of its two notes |
| DateParser.PreviewShape | photo_metadata_editor.py:679-772 | the preview never fails: it is either an error message without a date, or the long date of the date followed by one of the notes |
| DateParser.FallbackReached | photo_metadata_editor.py:760-772 | text that none of the year, digit and two-part rules accepts, and on which the two-part rule does not raise, gets the fallback on the stripped text with its case kept |
| DateParser.OverflowAborts | photo_metadata_editor.py:744-746 | a month A outside the C `int` range with a year B in 1900..2100 gives "Invalid date format" without the fuzzy parser: `datetime(B, A, 1)` raises `OverflowError`, which the `except ValueError` lets through to the outer handler; see also photo_metadata_editor.py:770-772 |
| DateParser.OverflowExample | photo_metadata_editor.py:735-772 | "9999999999/2000" gives "Invalid date format" whatever the fuzzy parser answers |
| DateParser.WordsGoToFuzzy | photo_metadata_editor.py:679-772 | text that is not all digits and has no separator gets the fuzzy parser's date when its year is in 1900..2100, and otherwise the message for an out-of-range or unparsed date |
| Exif.Put | photo_metadata_editor.py:983-991 | `exif_dict.setdefault(ifd, {})[tag] = v` sets that tag, touches no other tag, and adds the IFD if missing |
| Exif.Pop | photo_metadata_editor.py:973-978 | `pop(tag, None)` removes that tag and touches no other tag or IFD |
| Exif.Lookup | photo_metadata_editor.py:530-531 | no contract of its own: `exif_dict.get(ifd, {}).get(tag)`; the contracts of `Put` and `Pop` state their effect through it |
| Exif.Resolve | photo_metadata_editor_qt.py:1387-1391 | no contract of its own: a `datetime` is used as it is and a `str` goes through the fuzzy parser; `DateRoundTripQt` states the write through it |
| Exif.Truthy | photo_metadata_editor.py:534 | no contract of its own: `if date_field:` on each candidate; `MalformedOriginalFallback` and `DateClearedReadsNothing` state the reader through it |
| Exif.DateTk | photo_metadata_editor.py:971-991 | `None` removes DateTimeOriginal and DateTime; a date writes the same "YYYY:MM:DD HH:MM:SS" `str` to both and creates missing IFDs; no other tag changes |
| Exif.DateQt | photo_metadata_editor_qt.py:1376-1404 | as the Tk writer, but the text is UTF-8 `bytes`, and a string the fuzzy parser rejects leaves the dictionary unchanged |
| Exif.TryDateTk | photo_metadata_editor.py:533-543 | a candidate the Tk reader shows is the long date of some `datetime` |
| Exif.LoadDateTk | photo_metadata_editor.py:524-546 | the Tk reader shows only the long date of a real date, and nothing when neither date tag is present; `DateRoundTripTk` and `MalformedOriginalFallback` state the order of the tags |
| Exif.ReadDateQt | photo_metadata_editor_qt.py:1059-1063 | the Qt reader shows a tag only when its value is `bytes`, and then only the long date of a real date |
| Exif.LoadDateQt | photo_metadata_editor_qt.py:1055-1071 | when DateTimeOriginal is present, only it decides what is shown, with no fall-back to DateTime |
| Exif.DateRoundTripTk | photo_metadata_editor.py:971-991 | a date the Tk writer stores reads back, through the Tk reader, as the same day; see also photo_metadata_editor.py:524-546 |
| Exif.DateRoundTripQt | photo_metadata_editor_qt.py:1376-1404 | a date the Qt writer stores reads back, through the Qt reader, as the same day; see also photo_metadata_editor_qt.py:1055-1071 |
| Exif.DateClearedReadsNothing | photo_metadata_editor.py:973-978 | after the date is cleared, both readers show nothing; see also photo_metadata_editor_qt.py:1378-1383 |
| Exif.MalformedOriginalFallback | photo_metadata_editor.py:533-543 | with a DateTimeOriginal that decodes but does not parse and a good DateTime, Tk shows DateTime's date and Qt shows nothing; see also photo_metadata_editor_qt.py:1059-1071 |
| Exif.CaptionTk | photo_metadata_editor.py:1007-1028 | a `None` or blank caption removes ImageDescription and UserComment; otherwise ImageDescription is the caption and UserComment is "UNICODE\0" plus its UTF-8 bytes; no other tag changes |
| Exif.CaptionQt | photo_metadata_editor_qt.py:1406-1429 | `None` removes both tags; otherwise the stripped caption is stored UTF-8 encoded in both, after "UNICODE\0" in UserComment; no other tag changes |
| Exif.UserCommentRoundTrip | photo_metadata_editor.py:1027 | the 8-byte header is "UNICODE\0" and the rest decodes to the caption |
| Exif.LatitudeRef | photo_metadata_editor.py:1325 | GPSLatitudeRef is "N" exactly when the latitude is at least 0, otherwise "S" |
| Exif.LongitudeRef | photo_metadata_editor.py:1327 | GPSLongitudeRef is "E" exactly when the longitude is at least 0, otherwise "W" |
| Exif.DmsRationals | photo_metadata_editor.py:1320-1335 | the stored value is three rationals over 1, 1 and 1000, with minutes below 60 and thousandths of a second below 60000 |
| Exif.DmsBelow | photo_metadata_editor.py:1329-1335 | the truncated degrees, minutes and thousandths of a second lie at most a thousandth of a second below the coordinate |
| Exif.CoordinateRoundTrip | photo_metadata_editor_qt.py:1450-1457 | `gps_to_decimal` of what the writer stores is the coordinate to within a thousandth of a second, sign restored from the letter; see also photo_metadata_editor_qt.py:1124-1135 |
| Exif.GpsToDecimal | photo_metadata_editor_qt.py:1124-1135 | `gps_to_decimal` fails exactly on fewer than three components or a zero denominator; for non-negative rationals the result is at most 0 for "S" and "W" and at least 0 otherwise |
| Exif.PutCoordinates | photo_metadata_editor.py:1313-1327 | the four GPS tags hold the rationals and letters of the two coordinates, and nothing outside them changes |
| Exif.LocationTk | photo_metadata_editor.py:1305-1327 | `None` deletes the GPS IFD and nothing else; a location writes the coordinates, or raises exactly when a coordinate is missing |
| Exif.LocationQt | photo_metadata_editor_qt.py:1431-1457 | `None` deletes the GPS IFD; a location with both coordinates is written; one without them leaves the dictionary unchanged |
| Exif.LocationWritersAgree | photo_metadata_editor.py:1305-1327 | wherever the Tk writer does not raise, both writers give the same dictionary; see also photo_metadata_editor_qt.py:1431-1457 |
| Exif.ExifDict.PopTag | photo_metadata_editor.py:973-978 | the in-place `pop` is the functional `Pop` |
| Exif.ExifDict.DeleteTag | photo_metadata_editor_qt.py:1380-1383 | the guarded `del` is the functional `Pop` |
| Exif.ExifDict.SetTag | photo_metadata_editor.py:983-991 | creating the IFD and assigning the tag is the functional `Put` |
| Exif.ExifDict.SaveDateTk | photo_metadata_editor.py:971-991 | the dictionary afterwards is `DateTk` of the one before |
| Exif.ExifDict.SaveDateQt | photo_metadata_editor_qt.py:1376-1404 | the dictionary afterwards is `DateQt` of the one before |
| Exif.ExifDict.SaveCaptionTk | photo_metadata_editor.py:1007-1028 | the dictionary afterwards is `CaptionTk` of the one before |
| Exif.ExifDict.SaveCaptionQt | photo_metadata_editor_qt.py:1406-1429 | the dictionary afterwards is `CaptionQt` of the one before |
| Exif.ExifDict.SaveLocationTk | photo_metadata_editor.py:1305-1327 | reports success exactly when `LocationTk` does, and then holds its result |
| Exif.ExifDict.SaveLocationQt | photo_metadata_editor_qt.py:1431-1457 | the dictionary afterwards is `LocationQt` of the one before |
| Exif.ExifDict.SetCoordinates | photo_metadata_editor.py:1324-1327 | the four GPS assignments give `PutCoordinates` of the dictionary before |
| Exif.SameCoordinatesOnNewIfd | photo_metadata_editor.py:1313-1314 | creating the empty GPS IFD first makes no difference to the coordinates written |
| Pending.LocationData | photo_metadata_editor.py:1293-1298 | the location dictionary built from a suggestion holds its address and both coordinates |
| Pending.Entry | photo_metadata_editor_qt.py:1319 | `pending_changes.get(field)` is an entry for that field held in the dictionary, or none when no entry has it |
| Pending.UpsertLatestWins | photo_metadata_editor_qt.py:1319 | after `pending_changes[field] = value` the field's slot holds the new value, every other field keeps its entry, and each key stays unique; see also photo_metadata_editor.py:902 |
| Pending.UpsertElements | photo_metadata_editor.py:902 | scheduling adds the new change and keeps only entries that were already pending |
| Pending.Upsert | photo_metadata_editor_qt.py:1319 | no contract of its own: `pending_changes[field] = value`; `UpsertLatestWins` and `UpsertElements` state it; see also photo_metadata_editor.py:902 |
| Pending.ApplyOneTk | photo_metadata_editor.py:940-946 | a Tk writer call that succeeds changes only the tags of its own field |
| Pending.ApplyOneQt | photo_metadata_editor_qt.py:1351-1357 | a Qt writer call changes only the tags of its own field |
| Pending.ApplyQtFrame | photo_metadata_editor_qt.py:1351-1357 | a save leaves every tag that none of its entries touches as it was |
| Pending.ApplyTkFrame | photo_metadata_editor.py:940-946 | the same for a Tk save that succeeds |
| Pending.ApplyTkFails | photo_metadata_editor.py:940-946 | the Tk save raises exactly when a pending location lacks a coordinate (both directions); see also photo_metadata_editor.py:1316-1321 |
| Pending.ApplyQtDate | photo_metadata_editor_qt.py:1351-1357 | the date tags after a Qt save are those the date writer alone would give, wherever the date sits among the entries |
| Pending.ApplyTkDate | photo_metadata_editor.py:940-946 | the same for a Tk save that succeeds |
| Pending.SavedDateReadsBack | photo_metadata_editor_qt.py:1265-1274 | whatever else is pending, the date saved at once is what the Qt reader then shows |
| Pending.WriteQt | photo_metadata_editor_qt.py:1352-1357 | the loop body hands one entry to its writer, giving `ApplyOneQt` |
| Pending.ApplyPendingQt | photo_metadata_editor_qt.py:1350-1357 | the loop leaves the dictionary as `ApplyQt` of the one before: every entry applied in dictionary order |
| Pending.WriteTk | photo_metadata_editor.py:940-946 | the loop body reports success exactly when `ApplyOneTk` does, and then holds its result |
| Pending.ApplyPendingTk | photo_metadata_editor.py:939-946 | the loop succeeds exactly when `ApplyTk` does, and then leaves its result |
| Pending.ApplyTkStops | photo_metadata_editor.py:939-946 | once a prefix of the entries fails, the whole save fails |
| Pending.ApplyTk | photo_metadata_editor.py:939-946 | no contract of its own: the Tk save loop as a function of the entries; `ApplyTkFails`, `ApplyTkFrame`, `ApplyTkDate` and `ApplyTkStops` state it |
| Pending.ApplyQt | photo_metadata_editor_qt.py:1350-1357 | no contract of its own: the Qt save loop as a function of the entries; `ApplyQtFrame`, `ApplyQtDate` and `SavedDateReadsBack` state it |
| ImageCache.Find | photo_metadata_editor_qt.py:634 | a key found is held with that image; a key not found is held by no entry |
| ImageCache.Remove | photo_metadata_editor_qt.py:636 | `pop(k)` keeps exactly the entries with other keys |
| ImageCache.RemoveAt | photo_metadata_editor_qt.py:636 | `pop(k)` keeps the other entries in their order: it cuts out exactly the entry at k's position |
| ImageCache.TouchOrder | photo_metadata_editor_qt.py:634-638 | a hit moves the touched entry to the newest end and leaves every other entry in its place in the order |
| ImageCache.Touch | photo_metadata_editor_qt.py:636-637 | no contract of its own: pop and re-insert; `TouchOrder` and `TouchKeepsTier` state it; see also photo_metadata_editor_qt.py:705-706 |
| ImageCache.HitProtectsFromEviction | photo_metadata_editor_qt.py:632-657 | in a full tier, a hit on k followed by a miss evicts exactly the oldest entry other than k, and k stays cached |
| ImageCache.RemoveUnique | photo_metadata_editor_qt.py:636 | removing a key keeps the keys unique and drops exactly one entry when the key is present |
| ImageCache.TouchKeepsTier | photo_metadata_editor_qt.py:634-638 | a hit neither grows nor shrinks the tier, keeps the same entries and makes the touched one the newest; see also photo_metadata_editor_qt.py:703-707 |
| ImageCache.EvictionFromOldestEnd | photo_metadata_editor_qt.py:622-630 | what eviction pops followed by what remains is the tier as it was; what remains is within the bound and keeps the newest entry; see also photo_metadata_editor_qt.py:749-753 |
| ImageCache.Newest | photo_metadata_editor_qt.py:624-629 | no contract of its own: what the `popitem(last=False)` loop keeps; `EvictionFromOldestEnd` states it; see also photo_metadata_editor_qt.py:751-753 |
| ImageCache.Oldest | photo_metadata_editor_qt.py:624-629 | no contract of its own: what that loop pops, oldest first; `EvictionFromOldestEnd` states it |
| ImageCache.HandlesOf | photo_metadata_editor_qt.py:613-615 | the images of a tier are exactly those some entry holds |
| ImageCache.TouchKeepsOriginalTier | photo_metadata_editor_qt.py:634-638 | a hit keeps the original tier's invariant: bounded, keys and images unique, every cached image open |
| ImageCache.KeptNotPopped | photo_metadata_editor_qt.py:624-630 | no image that stays cached is among those eviction pops |
| ImageCache.EvictionKeepsTier | photo_metadata_editor_qt.py:651-653 | appending a new image and closing what eviction pops keeps the invariant; no cached image is ever closed |
| ImageCache.ScaledKeyInjective | photo_metadata_editor_qt.py:701 | different photos or sizes never share a slot of the scaled tier |
| ImageCache.ScaledKey | photo_metadata_editor_qt.py:701 | no contract of its own: `f"{photo_path}_{w}x{h}"`; `ScaledKeyInjective` states that it tells sizes and paths apart |
| ImageCache.Cache.constructor | photo_metadata_editor_qt.py:202-206 | both tiers start empty and nothing is closed |
| ImageCache.Cache.ManageImageCache | photo_metadata_editor_qt.py:622-630 | the original tier becomes its newest 10 entries and exactly the popped images are closed |
| ImageCache.Cache.ManageScaledCache | photo_metadata_editor_qt.py:749-753 | the scaled tier becomes its newest 20 entries, and nothing is closed |
| ImageCache.Cache.GetCachedImage | photo_metadata_editor_qt.py:632-657 | a hit returns the cached image and makes it the newest; a successful miss appends a new image and evicts down to 10; a failed load changes nothing; the scaled tier is untouched |
| ImageCache.Cache.GetCachedScaledPixmap | photo_metadata_editor_qt.py:699-728 | a hit returns the cached pixmap, makes it the newest and leaves the original tier alone; a miss touches or loads the original exactly as `GetCachedImage` does (including what eviction closes), then resizes it: when opening fails nothing changes; when opening succeeds but the lazy pixel decode in `resize` raises, the original tier keeps what `GetCachedImage` did, the scaled tier is unchanged and no pixmap is returned; otherwise a new pixmap is appended as the newest and the tier trimmed to 20 |
| ImageCache.Cache.AddScaled | photo_metadata_editor_qt.py:716-726 | the new pixmap (or grey placeholder) is stored as the newest entry and the tier is trimmed to 20 |
| ImageCache.Cache.ClearImageCaches | photo_metadata_editor_qt.py:610-620 | every cached original is closed and both tiers end empty |
| QtEditor.Request | photo_metadata_editor_qt.py:840-857 | a request leaves a navigation pending in its direction at its time; only the first arms the 50 ms timer, and later ones keep that deadline |
| QtEditor.Fire | photo_metadata_editor_qt.py:859-877 | with a request pending, the timer moves exactly when 50 ms have passed since the last request; a move goes in the stored direction and clears the pending flag and the timer |
| QtEditor.BurstState | photo_metadata_editor_qt.py:840-857 | after a burst of requests the deadline is the first request's, and direction and time are the last request's |
| QtEditor.BurstMovesOnce | photo_metadata_editor_qt.py:840-877 | presses that all arrive before the first deadline give exactly one move, in the last direction, within two firings |
| QtEditor.Moved | photo_metadata_editor_qt.py:887-919 | the index stays in range, is unchanged exactly at the end it moves towards, and otherwise moves by one |
| QtEditor.PreloadTargets | photo_metadata_editor_qt.py:821-838 | the preloaded photos are the next one first and then the previous one, exactly those that exist |
| QtEditor.Stripped | photo_metadata_editor_qt.py:1281-1284 | `text.strip() or None` is none exactly for a blank text, and otherwise a non-blank stripped text |
| QtEditor.Capture | photo_metadata_editor_qt.py:929-951 | the snapshot keeps the date and the caption exactly when they are not blank, stripped, and the selected location |
| QtEditor.FieldNames | photo_metadata_editor_qt.py:958-966 | the hint names exactly the fields present, in date, caption, location order, and is empty exactly for an empty snapshot |
| QtEditor.CopyHint | photo_metadata_editor_qt.py:953-972 | an empty snapshot gives the "No previous photo metadata" hint; otherwise "Will copy: " and the field names, never an empty list |
| QtEditor.CommaJoin | photo_metadata_editor_qt.py:967 | no contract of its own: `', '.join`; `CopyHint` and `CopyButtonOutcome` state the hint built with it |
| QtEditor.Schedule | photo_metadata_editor_qt.py:1313-1322 | the field's slot takes the new value, the other slots stay, the timer is restarted, and nothing else changes |
| QtEditor.Save | photo_metadata_editor_qt.py:1324-1374 | the save keeps the session invariant |
| QtEditor.Load | photo_metadata_editor_qt.py:755-789 | loading keeps the session invariant; see also photo_metadata_editor_qt.py:995-1053 |
| QtEditor.Navigate | photo_metadata_editor_qt.py:887-919 | a move keeps the session invariant |
| QtEditor.NavTimeout | photo_metadata_editor_qt.py:859-877 | the timer firing keeps the session invariant |
| QtEditor.Copy | photo_metadata_editor_qt.py:974-993 | copying keeps the session invariant |
| QtEditor.AutoSave | photo_metadata_editor_qt.py:1322 | the auto-save firing keeps the session invariant |
| QtEditor.SaveDateNow | photo_metadata_editor_qt.py:1265-1274 | saving a date at once keeps the session invariant |
| QtEditor.Flush | photo_metadata_editor_qt.py:921-927 | the save before a move keeps the session invariant |
| QtEditor.Store | photo_metadata_editor_qt.py:929-951 | taking the snapshot keeps the session invariant |
| QtEditor.RequestMove | photo_metadata_editor_qt.py:879-885 | a Previous/Next request keeps the session invariant |
| QtEditor.DateEdited | photo_metadata_editor_qt.py:1137-1150 | a date edit keeps the session invariant |
| QtEditor.SetDateText | photo_metadata_editor_qt.py:979-981 | setting the date entry keeps the session invariant |
| QtEditor.CaptionEdited | photo_metadata_editor_qt.py:1276-1285 | a caption edit keeps the session invariant |
| QtEditor.LocationEdited | photo_metadata_editor_qt.py:1287-1311 | a location edit keeps the session invariant |
| QtEditor.SetLocationText | photo_metadata_editor_qt.py:987-991 | setting the location entry keeps the session invariant |
| QtEditor.Select | photo_metadata_editor_qt.py:1601-1620 | choosing a suggestion keeps the session invariant |
| QtEditor.SetDateNotBlank | photo_metadata_editor_qt.py:1137-1150 | setting the date entry to a non-blank text only changes the entry: nothing is scheduled; see also photo_metadata_editor_qt.py:979-981 |
| QtEditor.SaveOutcome | photo_metadata_editor_qt.py:1324-1374 | nothing happens without pending changes, without files, before the metadata has loaded, or on a failed write; a successful save writes every entry to the photo shown, clears the dictionary and leaves all other photos alone |
| QtEditor.SaveRuns | photo_metadata_editor_qt.py:1326-1332 | no contract of its own: the three guards of `save_pending_metadata`; `SaveOutcome` states that the save is a no-op exactly when they fail |
| QtEditor.NavigateOutcome | photo_metadata_editor_qt.py:887-927 | a move changes the index by exactly one step or, at either end, nothing; before it, pending changes go to the old photo and the snapshot is taken of its fields |
| QtEditor.EditStaysWithItsPhoto | photo_metadata_editor_qt.py:887-927 | an edit followed by a move lands on the photo it was made on, and the later auto-save writes nothing to the next photo; see also photo_metadata_editor_qt.py:1313-1374 |
| QtEditor.SaveDateReadsBack | photo_metadata_editor_qt.py:1265-1274 | a date chosen from the preview is on disk at once, and reads back as that day whatever else was pending |
| QtEditor.CopyButtonOutcome | photo_metadata_editor_qt.py:953-972 | the copy button is enabled exactly when the snapshot is not empty, and its hint lists the fields present |
| QtEditor.UpdateCopy | photo_metadata_editor_qt.py:953-972 | no contract of its own: the button state and hint from the snapshot; `CopyButtonOutcome` states them |
| QtEditor.CaptionSlot | photo_metadata_editor_qt.py:1276-1285 | a caption edit schedules the stripped caption, or `None` when blank, and changes no other slot |
| QtEditor.SetLocationSlot | photo_metadata_editor_qt.py:1287-1298 | setting the location text changes no slot but the location's |
| QtEditor.PastedRoundTrip | photo_metadata_editor_qt.py:929-951 | a snapshot of the form after pasting gives back every field the pasted snapshot held, and the old form's for the others; see also photo_metadata_editor_qt.py:974-993 |
| QtEditor.CopyFormOutcome | photo_metadata_editor_qt.py:974-993 | copying from an empty snapshot does nothing; otherwise the fields present replace the form's and the absent ones are left alone |
| QtEditor.CopyPendingOutcome | photo_metadata_editor_qt.py:974-993 | of the copied fields only the caption is scheduled; the date slot is unchanged and nothing is written to disk; see also photo_metadata_editor_qt.py:1137-1150 |
| QtEditor.SelectOutcome | photo_metadata_editor_qt.py:1601-1620 | choosing a suggestion leaves exactly that place pending for the location, shows its address and restarts the auto-save |
| QtEditor.LoadOutcome | photo_metadata_editor_qt.py:995-1053 | an opened image refills the date (as the Qt reader gives it), caption, location and selected place, marks the metadata loaded and refreshes the copy button, writing nothing and keeping the pending changes; a failed open changes nothing |
| QtEditor.DateText | photo_metadata_editor_qt.py:1055-1071 | no contract of its own: what `load_date_from_exif` leaves in the cleared entry; `LoadOutcome` and `ReloadShowsSavedDate` state it |
| QtEditor.ReloadShowsSavedDate | photo_metadata_editor_qt.py:1265-1274 | a date saved from the preview is what the date entry shows when the photo is loaded again |
| QtEditor.DateEditOutcome | photo_metadata_editor_qt.py:1137-1150 | a blank date entry schedules the date's removal; other text changes only the entry; no other slot changes |
| QtEditor.LocationEditOutcome | photo_metadata_editor_qt.py:1287-1311 | a blank location entry schedules the GPS removal; other text changes only the entry; no other slot changes |
| QtEditor.Editor.constructor | photo_metadata_editor_qt.py:198-245 | the initial attributes: first photo, nothing pending, nothing loaded, no snapshot, navigation idle |
| QtEditor.Editor.ScheduleMetadataSave | photo_metadata_editor_qt.py:1313-1322 | the new state is `Schedule` of the old |
| QtEditor.Editor.SavePendingMetadata | photo_metadata_editor_qt.py:1324-1374 | the new state is `Save` of the old, with the writes done by the in-place loop on `ExifDict` |
| QtEditor.Editor.AutoSaveTimeout | photo_metadata_editor_qt.py:1322 | the new state is `AutoSave` of the old |
| QtEditor.Editor.SaveDateImmediately | photo_metadata_editor_qt.py:1265-1274 | the new state is `SaveDateNow` of the old |
| QtEditor.Editor.SavePendingChangesBeforeNavigation | photo_metadata_editor_qt.py:921-927 | the new state is `Flush` of the old |
| QtEditor.Editor.StoreCurrentPhotoMetadata | photo_metadata_editor_qt.py:929-951 | the new state is `Store` of the old |
| QtEditor.Editor.UpdateCopyButtonState | photo_metadata_editor_qt.py:953-972 | the new state is `UpdateCopy` of the old |
| QtEditor.Editor.LoadCurrentPhoto | photo_metadata_editor_qt.py:755-789 | the new state is `Load` of the old |
| QtEditor.Editor.NavigateTo | photo_metadata_editor_qt.py:887-919 | the new state is `Navigate` of the old |
| QtEditor.Editor.DebouncedNavigation | photo_metadata_editor_qt.py:840-857 | the new state is `RequestMove` of the old |
| QtEditor.Editor.ExecuteNavigation | photo_metadata_editor_qt.py:859-877 | the new state is `NavTimeout` of the old |
| QtEditor.Editor.OnDateChange | photo_metadata_editor_qt.py:1137-1150 | the new state is `DateEdited` of the old |
| QtEditor.Editor.OnCaptionChange | photo_metadata_editor_qt.py:1276-1285 | the new state is `CaptionEdited` of the old |
| QtEditor.Editor.OnLocationChange | photo_metadata_editor_qt.py:1287-1311 | the new state is `LocationEdited` of the old |
| QtEditor.Editor.SetDateEntry | photo_metadata_editor_qt.py:979-981 | the new state is `SetDateText` of the old |
| QtEditor.Editor.SetLocationEntry | photo_metadata_editor_qt.py:987-991 | the new state is `SetLocationText` of the old |
| QtEditor.Editor.CopyFromPreviousPhoto | photo_metadata_editor_qt.py:974-993 | the new state is `Copy` of the old |
| QtEditor.Editor.SelectLocationSuggestion | photo_metadata_editor_qt.py:1601-1620 | the new state is `Select` of the old |
| TkEditor.Up | photo_metadata_editor.py:1366-1374 | with suggestions, the highlight stays in range; without them, it is unchanged |
| TkEditor.Down | photo_metadata_editor.py:1376-1384 | with suggestions, the highlight stays in range; without them, it is unchanged |
| TkEditor.UpUndoesDown | photo_metadata_editor.py:1366-1384 | Down then Up, or Up then Down, returns to the same suggestion |
| TkEditor.DownCycles | photo_metadata_editor.py:1376-1384 | k presses of Down move the highlight k places, wrapping from the bottom to the top; n presses come back |
| TkEditor.UpCycles | photo_metadata_editor.py:1366-1374 | k presses of Up move the highlight k places up, wrapping from the top to the bottom |
| TkEditor.FirstFive | photo_metadata_editor.py:1162-1163 | `locations[:5]` is a prefix of at most five places, all of them when there are fewer |
| TkEditor.Schedule | photo_metadata_editor.py:895-905 | the field's slot takes the new value, the other slots stay, the auto-save is rescheduled, and nothing else changes |
| TkEditor.Save | photo_metadata_editor.py:918-969 | the save keeps the session invariant |
| TkEditor.AutoSave | photo_metadata_editor.py:905 | the auto-save firing keeps the session invariant |
| TkEditor.SaveDateNow | photo_metadata_editor.py:907-916 | saving a date at once keeps the session invariant |
| TkEditor.Load | photo_metadata_editor.py:408-440 | loading keeps the session invariant; see also photo_metadata_editor.py:486-521 |
| TkEditor.PreviousPhoto | photo_metadata_editor.py:619-626 | moving back keeps the index in range |
| TkEditor.NextPhoto | photo_metadata_editor.py:628-635 | moving on keeps the index in range |
| TkEditor.Show | photo_metadata_editor.py:1157-1195 | showing suggestions keeps at most five and a valid highlight |
| TkEditor.Hide | photo_metadata_editor.py:1197-1201 | hiding keeps the session invariant |
| TkEditor.UpKey | photo_metadata_editor.py:1366-1374 | the Up key keeps the highlight valid |
| TkEditor.DownKey | photo_metadata_editor.py:1376-1384 | the Down key keeps the highlight valid |
| TkEditor.Select | photo_metadata_editor.py:1284-1303 | choosing a suggestion keeps the session invariant |
| TkEditor.Accept | photo_metadata_editor.py:1337-1364 | Enter or Tab keeps the session invariant |
| TkEditor.SuggestionOutcome | photo_metadata_editor.py:1157-1201 | showing keeps the first five places with the first highlighted, and no places means hiding; the keys do nothing without suggestions and otherwise move one step round; see also photo_metadata_editor.py:1366-1384 |
| TkEditor.AcceptOutcome | photo_metadata_editor.py:1337-1364 | Enter or Tab on a highlighted suggestion schedules exactly that place, shows its address, closes the list and leaves the other slots; see also photo_metadata_editor.py:1284-1303 |
| TkEditor.SaveOutcome | photo_metadata_editor.py:918-969 | without files or pending changes nothing happens; otherwise the save raises exactly when a pending location lacks a coordinate; then, or on a failed write, nothing changes; otherwise the photo shown gets every entry and the dictionary is cleared; no other photo changes |
| TkEditor.SaveDateReadsBack | photo_metadata_editor.py:907-916 | with no location lacking coordinates pending, a date chosen from the preview is on disk at once and reads back as that day |
| TkEditor.EditLandsOnNextPhoto | photo_metadata_editor.py:619-635 | an edit followed within the auto-save delay by moving to the next photo is written to that next photo, and the photo it was made on keeps its old metadata; see also photo_metadata_editor.py:895-905 |
| TkEditor.LoadOutcome | photo_metadata_editor.py:486-521 | an opened image refills the date (as the Tk reader gives it), caption and location, and nothing else changes; a failed open changes nothing |
| TkEditor.DateText | photo_metadata_editor.py:524-546 | no contract of its own: what `load_date_from_exif` leaves in the cleared entry; `LoadOutcome` and `ReloadShowsSavedDate` state it |
| TkEditor.ReloadShowsSavedDate | photo_metadata_editor.py:907-916 | a date saved from the preview is what the date field shows when the photo is loaded again |
| TkEditor.MoveOutcome | photo_metadata_editor.py:619-635 | Left and Right move one photo back or on, or do nothing at either end; the pending changes, the scheduled auto-save and the files stay as they were |
| TkEditor.Editor.constructor | photo_metadata_editor.py:25-66 | the initial attributes: first photo, nothing pending, no suggestions, highlight -1 |
| TkEditor.Editor.ScheduleMetadataSave | photo_metadata_editor.py:895-905 | the new state is `Schedule` of the old |
| TkEditor.Editor.SavePendingMetadata | photo_metadata_editor.py:918-969 | the new state is `Save` of the old, with the writes done by the in-place loop on `ExifDict` |
| TkEditor.Editor.AutoSaveTimeout | photo_metadata_editor.py:905 | the new state is `AutoSave` of the old |
| TkEditor.Editor.SaveDateImmediately | photo_metadata_editor.py:907-916 | the new state is `SaveDateNow` of the old |
| TkEditor.Editor.LoadCurrentPhoto | photo_metadata_editor.py:408-440 | the new state is `Load` of the old; see also photo_metadata_editor.py:486-521 |
| TkEditor.Editor.PreviousPhotoEvent | photo_metadata_editor.py:619-626 | the new state is `PreviousPhoto` of the old |
| TkEditor.Editor.NextPhotoEvent | photo_metadata_editor.py:628-635 | the new state is `NextPhoto` of the old |
| TkEditor.Editor.ShowLocationSuggestions | photo_metadata_editor.py:1157-1195 | the new state is `Show` of the old |
| TkEditor.Editor.HideLocationSuggestions | photo_metadata_editor.py:1197-1201 | the new state is `Hide` of the old |
| TkEditor.Editor.OnLocationUpKey | photo_metadata_editor.py:1366-1374 | the new state is `UpKey` of the old |
| TkEditor.Editor.OnLocationDownKey | photo_metadata_editor.py:1376-1384 | the new state is `DownKey` of the old |
| TkEditor.Editor.SelectLocationSuggestion | photo_metadata_editor.py:1284-1303 | the new state is `Select` of the old |
| TkEditor.Editor.OnLocationEnterKey | photo_metadata_editor.py:1337-1350 | the new state is `Accept` of the old |

## Left out

- Widgets, layout, focus handling, event filters, status messages and the zoomable viewer.
  These are UI. Text read back from widgets comes into the model as parameters.
- The loaded caption and location texts. `load_caption_from_exif`, `load_location_from_exif`
  and the reverse geocoding at load are not part of this model. What they put into the
  fields is the `Loaded` parameter of `Load`.
- Threads and timers as concurrency. The preload worker is reduced to its choice of photos
  (`QtEditor.PreloadTargets`). Timers are a flag or a deadline, and the current time is a
  parameter.
- Geocoding. The geopy lookups, their worker threads and polling, Enter without a
  highlighted suggestion, and the Qt suggestion list and its geocoding timer are left out.
  A geocoder result is a `Place`.
- Foreign libraries. dateutil's fuzzy parser is a function parameter. `piexif.load`, `dump`
  and `insert`, the `.backup` copy, PIL and QPixmap conversion are left out. Their success
  or failure is the `ioOk` / `loaded` / `resized` parameter (`resized` is whether PIL's
  lazy decode in `resize` succeeds). Images are abstract handles.
- A file whose EXIF cannot be read. The empty dictionary `piexif.load` falls back to is not
  modelled; the dictionary on disk is used as is.
- File discovery, sorting and the `_is_valid_image_file` check. The photo list is given.
- Tk `update_date_field_display`, which reformats the date entry depending on focus.
- Tk `on_caption_change` and `on_location_change`, and the date preview widgets of both
  editors. Only their effect on `pending_changes` is modelled, through `Schedule`.
- Floating point. GPS coordinates are `real`, so the degrees/minutes/seconds arithmetic is
  exact apart from the explicit truncations.
- `str.isdigit` and `str.isspace` on non-ASCII digits and spaces. Digits are ASCII.
- PyText.PyInt: does not model the limit of 4300 digits that CPython 3.11 and later put on
  `int()` of a string (a `ValueError`). Under that limit, a month A of more than 4300 digits
  in "A/B" falls through to the fuzzy parser instead of raising `OverflowError`.
- The C `int` that `datetime(...)` converts its arguments to is taken to be 32 bits wide
  (`Calendar.FitsCInt`).
- PyText.AsciiLower: lowers A-Z only. Python's `lower()` also lowers other letters and can
  change the length ('İ' becomes two characters). No proved property depends on the
  difference: lowering never creates a digit, '/' or '-', and the lowered text otherwise
  only reaches the fuzzy parser, which is a parameter.
- Exif.DmsRationals: states only the shape and ranges of the stored rationals. The value it
  stands for is stated separately by `Exif.DmsBelow`.
- QtEditor.Save, QtEditor.AutoSave, QtEditor.SaveDateNow, QtEditor.Flush, QtEditor.Store,
  QtEditor.Load, QtEditor.Navigate, QtEditor.RequestMove, QtEditor.NavTimeout,
  QtEditor.DateEdited, QtEditor.SetDateText, QtEditor.CaptionEdited, QtEditor.LocationEdited,
  QtEditor.SetLocationText, QtEditor.Copy, QtEditor.Select: their own contracts state only
  the session invariant. What they do is stated by `QtEditor.SaveOutcome` (Save, AutoSave,
  Flush), `QtEditor.SaveDateReadsBack` (SaveDateNow), `QtEditor.NavigateOutcome` (Navigate,
  Store), `QtEditor.Request`, `QtEditor.Fire` and `QtEditor.BurstMovesOnce` (RequestMove,
  NavTimeout), `QtEditor.LoadOutcome` (Load), `QtEditor.DateEditOutcome` and
  `QtEditor.SetDateNotBlank` (DateEdited, SetDateText), `QtEditor.CaptionSlot`,
  `QtEditor.LocationEditOutcome` and `QtEditor.SetLocationSlot` (LocationEdited,
  SetLocationText), `QtEditor.CopyFormOutcome` and `QtEditor.CopyPendingOutcome` (Copy) and
  `QtEditor.SelectOutcome` (Select).
- TkEditor.Save, TkEditor.AutoSave, TkEditor.SaveDateNow, TkEditor.Load,
  TkEditor.PreviousPhoto, TkEditor.NextPhoto, TkEditor.Show, TkEditor.Hide, TkEditor.UpKey,
  TkEditor.DownKey, TkEditor.Select, TkEditor.Accept: the same. What they do is stated by
  `TkEditor.SaveOutcome` (Save, AutoSave), `TkEditor.SaveDateReadsBack` (SaveDateNow),
  `TkEditor.LoadOutcome` (Load), `TkEditor.MoveOutcome` (PreviousPhoto, NextPhoto),
  `TkEditor.SuggestionOutcome` (Show, Hide, UpKey, DownKey) and `TkEditor.AcceptOutcome`
  (Select, Accept).
- QtEditor.CopyPendingOutcome: after a copy that brings a location, the location slot is not
  pinned down. Setting the entry's text schedules the GPS removal only when the new address
  is blank and the old text was not.
- Copying a date. This only fills the entry and opens its preview; nothing is scheduled.
- Qt `setText` emits its change signal only when the text changes. `setPlainText` on the
  caption is taken to emit always.
- TkEditor.Up, TkEditor.Down: promise only the range. The exact step is stated by
  `TkEditor.UpCycles` and `TkEditor.DownCycles`.

## Findings

| source | as written | input that shows it | evidently intended | confidence | as-written member | corrected member |
|---|---|---|---|---|---|---|
| photo_metadata_editor.py:619-635 | `previous_photo`/`next_photo` change `current_photo_index` without saving `pending_changes` first, so the auto-save one second later writes them to the photo now shown | click a location suggestion button for photo i, so that focus leaves the text fields (photo_metadata_editor.py:302-326), then press Right, bound on the root window at photo_metadata_editor.py:291-292, within one second: the location is written to photo i+1 and photo i keeps its old GPS data | pending changes are written to the photo they were made on before the index moves, as the Qt editor's `_save_pending_changes_before_navigation` does | high (not executed) | TkEditor.EditLandsOnNextPhoto | QtEditor.EditStaysWithItsPhoto |
