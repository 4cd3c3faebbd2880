# Sports calendar: page state, calendar grid and upload handlers in Dafny

This project models three parts of the municipal sports-event calendar.

- **The calendar page** (`src/pages/Index.tsx`). The page holds an in-memory event list, the ids the visitor registered for, the add-event draft, the add-event dialog flag, the sport filter and the displayed month. `IndexPage.Page` is a class with those fields. Its methods are the page's handlers:
  - `HandleAddEvent` validates the draft, appends the new event and resets the form.
  - `HandleRegister` appends an id.
  - `ChangeMonth` moves to day 1 of another month.
  - `CalendarData` builds the month grid.
- **The derived views.** The sport filter and the upcoming/past split are functions in `Events`, over the generic `Seqs.Filter`. The month grid is `CalendarGrid.BuildGrid`: two loops push the leading blanks and then one cell per day. It is proved against the predicate `IsCalendarGrid`, and the lemmas beside it state what a grid holds.
- **JavaScript `Date`.** The page uses `Date` for days-in-month, the weekday of the 1st and month navigation. `Dates` replaces it with integer arithmetic:
  - the proleptic Gregorian calendar;
  - 0-based months;
  - a weekday count from Sunday = 0, the order of the grid's header row;
  - day numbers counted from 0001-01-01.
  The current date is always a parameter, never a clock read.
- **The two upload cloud functions** (`backend/upload-media/index.py`, `backend/upload-document/index.py`). Each is a pure function of a `Http.Request` and the generated uuid:
  - the request carries the optional `httpMethod` and the already-decoded JSON body, as a string map;
  - the response body is empty or a JSON object of strings.
  `Text` models Python's `str.split('.')[-1]` faithfully: `Split` with its inverse `Join`, and `LastPart`.

`handleAddEvent` requires only title, date, time, location and organizer, and builds no event level, custom sport name, event number or approval flag. The page has no moderation, text search or login.

## Model

| member | source | states |
|---|---|---|
| `Seqs.Filter` | src/pages/Index.tsx:152-157 | every kept element is in the input and satisfies the predicate; every input element that satisfies it is kept; the result is no longer than the input |
| `Seqs.FilterMember` | src/pages/Index.tsx:152-157 | an element is in the filtered list iff it is in the input and satisfies the predicate |
| `Seqs.FilterIsSubsequence` | src/pages/Index.tsx:152-157 | filtering keeps the input's order (the result is a subsequence) |
| `Seqs.FilterAppend` | src/pages/Index.tsx:152-157 | filtering a concatenation is the concatenation of the filtered parts |
| `Seqs.FilterCount` | src/pages/Index.tsx:152-157 | an element satisfying the predicate keeps all its occurrences; any other element keeps none |
| `Seqs.FilterPartition` | src/pages/Index.tsx:156-157 | two complementary filters split the input: their multisets add up to the input's and their lengths to its length |
| `Seqs.FilterKeepsAll` | src/pages/Index.tsx:153 | a filter every element passes returns the input unchanged |
| `Events.FilterAllSports` | src/pages/Index.tsx:152-154 | with the "all" selection the sport filter keeps every event, in order |
| `Events.FilterOneSport` | src/pages/Index.tsx:152-154 | with one sport selected, an event is kept iff it is in the list and has that sport; each kept event keeps its multiplicity; order is kept |
| `Events.StatusPartition` | src/pages/Index.tsx:156-157 | upcoming and past split the filtered list: each event is in exactly one, multisets and lengths add up, both keep list order |
| `Events.FilterBySport` | src/pages/Index.tsx:152-154 | every kept event is in the list and matches the selection; every matching event of the list is kept |
| `Events.UpcomingOf` | src/pages/Index.tsx:156 | every kept event is in the list and upcoming; every upcoming event of the list is kept |
| `Events.PastOf` | src/pages/Index.tsx:157 | every kept event is in the list and past; every past event of the list is kept |
| `Events.DraftComplete` | src/pages/Index.tsx:164 | the guard of `handleAddEvent`: title, date, time, location and organizer all non-empty; `Page.HandleAddEvent` states what follows from it |
| `Events.EventFromDraft` | src/pages/Index.tsx:168-180 | the event built from the draft with the given id; its fields are stated by `Page.HandleAddEvent` |
| `Events.MaxId` | src/pages/Index.tsx:169 | `Math.max(...ids, 0)`: at least 0, at least every id, and either 0 or equal to some event's id |
| `Events.NextId` | src/pages/Index.tsx:169 | the new id is at least 1 and larger than every existing id |
| `Events.ParticipantLimit` | src/pages/Index.tsx:177 | an absent or zero limit becomes 50; a non-zero limit is kept; the result is never 0 |
| `Events.NextIdKeepsUnique` | src/pages/Index.tsx:169-182 | appending an event with the next id keeps ids unique, and the new id is larger than every earlier id |
| `Events.InitialEventsIds` | src/pages/Index.tsx:30-111 | the six initial events have distinct ids, and the next id is 7 |
| `IndexPage.Page.constructor` | src/pages/Index.tsx:132-150 | initial state: the initial events, "all" sports, no registrations, today's month, dialog closed, the initial draft; ids unique |
| `IndexPage.Page.FilteredEvents` | src/pages/Index.tsx:152-154 | `filteredEvents`: the sport filter of the page's events, characterised by `Events.FilterBySport` |
| `IndexPage.Page.UpcomingEvents` | src/pages/Index.tsx:156 | `upcomingEvents`: the upcoming part of the filtered events, characterised by `Events.UpcomingOf` |
| `IndexPage.Page.PastEvents` | src/pages/Index.tsx:157 | `pastEvents`: the past part of the filtered events, characterised by `Events.PastOf` |
| `IndexPage.Page.SelectSport` | src/pages/Index.tsx:245 | sets the selected sport and changes nothing else |
| `IndexPage.Page.SetAddDialogOpen` | src/pages/Index.tsx:261 | sets the dialog flag and changes nothing else |
| `IndexPage.Page.EditDraft` | src/pages/Index.tsx:282-371 | replaces the draft and changes nothing else |
| `IndexPage.Page.HandleRegister` | src/pages/Index.tsx:159-161 | the registration list becomes the old list plus the id at the end (length + 1, no deduplication); nothing else changes |
| `IndexPage.Page.HandleAddEvent` | src/pages/Index.tsx:163-196 | incomplete draft: events, draft and dialog flag unchanged. Complete draft: exactly one event appended, earlier events unchanged. The new event has an id above every old id, 0 participants, status upcoming, limit 50 when missing or 0, and the draft's text fields. The dialog is closed and the draft reset to the initial one. Ids stay unique |
| `IndexPage.Page.ChangeMonth` | src/pages/Index.tsx:223-225 | the displayed month becomes day 1 of the month `offset` months away (`year*12 + month` grows by `offset`); nothing else changes |
| `IndexPage.Page.CalendarData` | src/pages/Index.tsx:198-221 | returns the grid of the displayed month over the page's upcoming events of the selected sport |
| `IndexPage.CalendarShowsSelectedUpcoming` | src/pages/Index.tsx:215 | a day cell of the page's calendar holds an event iff the event is in the list, has the selected sport (or "all" is selected), is upcoming and is dated on that day's key |
| `IndexPage.AddEventAppendsToViews` | src/pages/Index.tsx:182 | after an add, the upcoming view is the old one plus the new event at its end (when its sport is selected); the past view is unchanged |
| `CalendarGrid.LeadingBlanks` | src/pages/Index.tsx:209-211 | the first loop produces exactly `n` blank cells |
| `CalendarGrid.DateKey` | src/pages/Index.tsx:214 | the `YYYY-MM-DD` key of a day; `DateKeyDayInjective` and `DateKeyExample` state its properties |
| `CalendarGrid.EventsOn` | src/pages/Index.tsx:215 | `upcomingEvents.filter(e => e.date === key)`; `EventsOnIsFilter` and `EventsOnSpec` state its properties |
| `CalendarGrid.DayCell` | src/pages/Index.tsx:213-217 | the cell pushed for a day; `GridCellAt`, `GridShape` and `GridToday` state what it holds |
| `CalendarGrid.BuildGrid` | src/pages/Index.tsx:198-221 | the two loops produce `IsCalendarGrid`: weekday-of-the-1st blanks, then for each day 1..days-in-month its cell (events on that key, "has events" iff non-empty, "is today") |
| `CalendarGrid.DateKeyDayInjective` | src/pages/Index.tsx:214 | two days of one month below 100 never share a `YYYY-MM-DD` key |
| `CalendarGrid.DateKeyExample` | src/pages/Index.tsx:214 | the key of day 4 of month 10 (November) of 2025 is `"2025-11-04"`, the form's date string |
| `CalendarGrid.EventsOnIsFilter` | src/pages/Index.tsx:215 | the events of a day are the generic filter of the upcoming list by that day's key |
| `CalendarGrid.EventsOnSpec` | src/pages/Index.tsx:215 | an event is among a day's events iff it is upcoming and dated on the key; it keeps its multiplicity; list order is kept |
| `CalendarGrid.PrefixShape` | src/pages/Index.tsx:209-218 | in any grid over day cells numbered 1, 2, ...: the cells before the lead are blank, day numbers increase strictly from 1, index `i` past the lead holds day `i - lead + 1`, "has events" iff the list is non-empty |
| `CalendarGrid.PrefixToday` | src/pages/Index.tsx:216 | in any such grid whose day cells are flagged on today's day only, a flagged cell sits at `lead + today - 1` and carries today's day; one exists iff today is in the grid's month and range |
| `CalendarGrid.GridCellAt` | src/pages/Index.tsx:209-218 | a cell before day 1's column is blank; any later cell has a day number within the month and holds the events on that day's key |
| `CalendarGrid.GridShape` | src/pages/Index.tsx:209-218 | grid length is blanks + days-in-month; blanks have date 0, no events, not today; day numbers strictly increase from 1, day d sits at index blanks + d - 1; "has events" iff the cell's list is non-empty |
| `CalendarGrid.GridToday` | src/pages/Index.tsx:216 | at most one cell is today's; any such cell is in today's year and month and carries today's day; one exists iff today lies in the grid's month |
| `CalendarGrid.GridCellEvents` | src/pages/Index.tsx:214-217 | a blank holds no events; a day cell holds exactly the upcoming events dated on its key, each as often as in the list, in list order |
| `CalendarGrid.GridEventInOneCell` | src/pages/Index.tsx:213-218 | an event appears in at most one cell of a grid |
| `CalendarGrid.GridCoversEvent` | src/pages/Index.tsx:213-217 | every upcoming event dated on a day of the month appears in that day's cell |
| `Dates.DaysInMonth` | src/pages/Index.tsx:202-203 | the last day of the month is between 28 and 31, and February has 29 days iff the year is a Gregorian leap year |
| `Dates.Weekday` | src/pages/Index.tsx:201-204 | `getDay()` of a date lies in 0..6 |
| `Dates.ShiftMonth` | src/pages/Index.tsx:224 | the normalised month is in 0..11 and `year*12 + month` equals the old index plus the offset |
| `Dates.ShiftMonthCompose` | src/pages/Index.tsx:224 | shifting by `a` and then by `b` is shifting by `a + b` |
| `Dates.ShiftMonthZero` | src/pages/Index.tsx:224 | shifting a normalised month by 0 returns it |
| `Dates.ShiftMonthOne` | src/pages/Index.tsx:224 | the next month is `month + 1` in the same year, or January of the next year after December |
| `Dates.NextThenPrevious` | src/pages/Index.tsx:223-225 | `changeMonth(1)` then `changeMonth(-1)` returns to the same year and month |
| `Dates.LeapYearsStep` | src/pages/Index.tsx:202-203 | the count of leap years grows by one past year `y` iff `y` is a leap year |
| `Dates.YearLength` | src/pages/Index.tsx:202-203 | a year has 366 days iff it is a leap year, 365 otherwise |
| `Dates.NextMonthStart` | src/pages/Index.tsx:201-204 | the 1st of the next month is days-in-month days after the 1st of this month, across year ends too |
| `Dates.NextMonthWeekday` | src/pages/Index.tsx:201-204 | the next month's grid starts on the weekday after this month's last day |
| `Dates.WeekdayAnchors` | src/pages/Index.tsx:433 | with Sunday = 0, 1970-01-01 is a Thursday (4) and 2025-11-01 a Saturday (6) |
| `Text.Split` | backend/upload-media/index.py:61 | `split('.')` gives at least one piece, no piece holds the separator, and one piece exactly when the string has no separator |
| `Text.LastPart` | backend/upload-media/index.py:61 | `split('.')[-1]`, the last piece of the split; its properties are stated by `LastPartAfterLastSep` and `LastPartOfAppend` |
| `Text.JoinSplit` | backend/upload-media/index.py:61 | joining the pieces of a split with the separator gives back the string |
| `Text.SplitJoin` | backend/upload-media/index.py:61 | splitting undoes joining separator-free pieces |
| `Text.LastPartAfterLastSep` | backend/upload-media/index.py:61 | `split('.')[-1]` holds no `.`; it is the whole string when there is no `.`; otherwise the string is some prefix, a `.` and that part |
| `Text.LastPartOfAppend` | backend/upload-document/index.py:60 | the last part of `x + "." + y` is `y` when `y` holds no `.` |
| `Text.Extension` | backend/upload-document/index.py:60 | with no `.` in the name the fallback is used; otherwise the extension holds no `.` and the name is some prefix, a `.` and the extension |
| `Text.NatToString` | src/pages/Index.tsx:214 | `String(n)` is a non-empty string of decimal digits, one digit exactly when n < 10 |
| `Text.NatToStringSpells` | src/pages/Index.tsx:214 | the digits of `String(n)` read back, by the independent `DecimalValue`, as `n`, and there is no leading zero |
| `Text.IntToString` | src/pages/Index.tsx:214 | `String(n)` of the year is non-empty and starts with `-` exactly when the year is negative |
| `Text.IntToStringSpells` | src/pages/Index.tsx:214 | after the sign, `String(n)` is a digit string without leading zero that reads back as the absolute value |
| `Text.PadStart` | src/pages/Index.tsx:214 | `padStart` returns the string when it is long enough; otherwise it has the target length, ends with the string and starts with fill characters |
| `Text.TwoDigits` | src/pages/Index.tsx:214 | `String(n).padStart(2, '0')` for n < 100 is the tens digit followed by the units digit |
| `Text.TwoDigitsInjective` | src/pages/Index.tsx:214 | distinct numbers below 100 pad to distinct two-character strings |
| `Http.StorageUrlInjective` | backend/upload-media/index.py:61-66 | a storage URL determines its folder (among folders of one length), its file id and its dot-free extension |
| `Http.MethodOf` | backend/upload-media/index.py:15 | `event.get('httpMethod', 'POST')`; `UploadMedia.Handler` and `UploadDocument.Handler` state the dispatch on it |
| `Http.Field` | backend/upload-media/index.py:44-46 | `body_data.get(key, fallback)`; the handlers' contracts state the defaults it yields |
| `Http.StorageUrl` | backend/upload-media/index.py:62-66 | the file URL under the storage host; `StorageUrlInjective` states that it determines its parts |
| `UploadMedia.Folder` | backend/upload-media/index.py:65 | the folder is `photos` iff the file type is `image`, otherwise `videos` |
| `UploadMedia.Handler` | backend/upload-media/index.py:14-81 | missing method counts as POST; OPTIONS iff the preflight reply (200, empty body); 405 iff neither OPTIONS nor POST; 400 iff POST with missing or empty content; 200 with JSON otherwise. That JSON has exactly url/fileName/fileId/fileType; the URL is `https://storage.example.com/{folder}/{fileId}.{ext}`; name (default `media.jpg`), id and type (default `image`) are echoed |
| `UploadMedia.UrlKeepsExtension` | backend/upload-media/index.py:59-66 | the text after the URL's last `.` is the file name's extension, or `jpg` when it has none |
| `UploadMedia.UrlDeterminesUpload` | backend/upload-media/index.py:59-66 | two successful uploads with the same URL have the same id, folder and extension, so distinct ids never collide |
| `UploadDocument.Handler` | backend/upload-document/index.py:14-79 | missing method counts as POST; OPTIONS iff the preflight reply; 405 iff neither OPTIONS nor POST; 400 iff POST with missing or empty content; 200 with JSON otherwise. That JSON has exactly url/fileName/fileId; the URL is `https://storage.example.com/documents/{fileId}.{ext}`; name (default `document.pdf`) and id are echoed |
| `UploadDocument.UrlKeepsExtension` | backend/upload-document/index.py:58-65 | the text after the URL's last `.` is the file name's extension, or `pdf` when it has none |
| `UploadDocument.UrlDeterminesUpload` | backend/upload-document/index.py:58-65 | two successful uploads with the same URL have the same id and extension |

## Left out

- Rendering: the JSX tree, CSS classes, icons, dialogs, animation delays and the widgets. This includes which registration buttons are disabled: full events and already-registered events. `HandleRegister` models the handler itself, which accepts any id.
- View-only state: `selectedEvent` (the details dialog) and `selectedDate`. `selectedDate` marks the highlighted cell and chooses the list of that day's upcoming events shown under the grid (`upcomingEvents.filter(e => e.date === selectedDate)`). That list is rendered in JSX only; it is the same filter as a day cell's events (`CalendarGrid.EventsOn`).
- `toLocaleDateString('ru-RU')`: the month caption and the event date labels depend on a locale library.
- The progress bar's percentage: floating point.
- `parseInt(...) || 50` on the limit input: a library parse. `EditDraft` takes the edited draft as a value, and `ParticipantLimit` treats an absent or zero limit as 50.
- The draft's `participants` and `status` fields: `handleAddEvent` never reads them.
- `newEvent.description || ''`: the form always holds a string, so it keeps the description as typed. An undefined description, which the form cannot produce, is not represented.
- `useMemo` caching of the grid: the grid is recomputed on each call, which gives the same value.
- JavaScript `Date` quirks outside the calendar arithmetic itself:
  - years 0..99 passed to `new Date(y, m, d)` are read as 1900..1999;
  - dates beyond `Date`'s range of about 275,000 years are invalid;
  - time of day and time zones are ignored.
  The model uses the plain proleptic Gregorian calendar for every integer year.
- Event ids are JavaScript numbers: the model uses unbounded integers and does not model precision loss above 2^53.
- In the upload handlers:
  - `uuid.uuid4()` is nondeterministic, so the id is a parameter;
  - `json.loads` failures and non-string JSON values are not modelled;
  - an absent body is the empty map;
  - `Request.httpMethod` is absent or a string: a present `"httpMethod": null`, which the handlers answer with 405, is not represented;
  - `json.dumps` key order is not kept by a map;
  - the unused `context` argument and the unused `base64`/`os` imports do nothing;
  - the CORS header values are constants, compared by equality only.
- `src/pages/PrivacyPolicy.tsx` is not part of this model: it holds static text and a navigation button.
- Moderation, event numbering, text search, user accounts and e-mail notifications do not occur in `src/pages/Index.tsx` or the two handlers, so there is nothing to model.
