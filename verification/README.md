# Market stall booking ledger

A Dafny model of the booking logic in the market-stall booking application
(`app.py`). Vendors book a stall for the current day. An administrator
confirms, rejects, marks paid or cancels bookings. A vendor uploads an
image as proof of payment. The index page shows each stall as
`available`, `pending` or `occupied` for today. A stall cannot be deleted
while any booking references it.

The two database tables are modelled as sequences in insertion order, as
the fields of the class `App.Market`. Each route handler that writes is
one method with a `modifies` clause, specified by a function of the
tables before the request (module `Ledger`). The index page is a method
that only reads the tables. The rules about single
bookings are pure functions in module `Lifecycle`. The `allowed_file`
check is in module `Upload`. Days are integer day numbers, prices are
integers, and "today" is a parameter. The URL of the saved proof file is
an opaque string parameter.

What the model proves:

- **Booking.** A booking request is refused in this order:
  - with NotFound when the stall is unknown;
  - when the stall already has a booking for [today, today], whatever
    its status;
  - when the vendor's name or phone is missing.

  Otherwise exactly one `pending` booking for `[today, today]` is
  appended. Its price
  is the stall's daily price, it has no proof and its id is new.
- **No double booking.** No two bookings of a stall cover the same single
  day. Every booking references an existing stall, and ids are unique.
  Every route keeps these properties for requests handled one at a time
  (`Invariant`, which `Market.Valid` wraps).
- **Status rules.** The status rules are exactly the code's guards:
  - update: only `confirmed` or `rejected`, from any status;
  - pay: from `confirmed` or `pending`;
  - cancel: from `confirmed`, `pending` or `paid`;
  - proof upload: to `pending_verification` from any status, once the
    file name passes `allowed_file`.
- **Refused requests.** A refused request leaves both tables unchanged.
- **No return to `pending`.** No route ever makes a booking `pending`
  again, and no sequence of requests does either.
- **Listing status.** The index status comes from the first same-day
  booking. Under the invariant it is `pending` exactly when a pending
  booking for [day, day] exists, and `occupied` exactly when a booking
  for [day, day] in any other status exists. A multi-day booking that
  spans the day is not counted.

Behaviour of the code worth knowing:

- Bookings always cover the current day only.
- The conflict test is equality of single days, not overlap of ranges.
- The price is the daily price and is not multiplied by a day count.
- The admin update does not check the previous status, and it accepts a
  repeated confirmation (`UpdateStatusRepeatAccepted`).
- A proof can be uploaded from any status, including `cancelled`
  (`UploadFromAnyStatus`).
- Rejecting or cancelling a booking does not free its stall for the day.
  The same-day query ignores the status, so the stall stays refused
  (`RefusedAfterAnyStatusChange`) and the listing shows it as `occupied`.

## Model

The record shapes are the datatypes `Records.Stall` (app.py:74-84) and
`Records.Booking` (app.py:86-100). `Records.Status` holds the values the
status column takes. The table below lists the functions, methods and
lemmas.


| member | source | states |
|---|---|---|
| `Upload.LastIndexOf` | app.py:33-34 | the result is the index of the last occurrence of the character, or None exactly when the character does not occur |
| `Upload.Lower` | app.py:34 | lower-casing keeps the length and folds each character on its own (ASCII `A`-`Z`) |
| `Upload.Extension` | app.py:33-34 | `rsplit('.', 1)[1]`: None exactly when there is no '.'; otherwise the dot-free suffix that follows a '.' |
| `Upload.AllowedFileIff` | app.py:31-34 | `allowed_file` holds exactly when some '.' is followed only by dot-free text whose lower-cased form is png, jpg, jpeg or gif |
| `Upload.AllowedFile` | app.py:32-34 | `allowed_file`: a name passes only if it contains a '.' and ends in a '.' followed by a three- or four-character extension |
| `Upload.AllowedFileAccepts` | app.py:31-34 | examples: "slip.JPG" passes (upper case is folded) and "scan.pdf.png" passes (only the last extension is tested) |
| `Upload.AllowedFileRejects` | app.py:31-34 | examples: "slip.pdf" (another extension), "png" (no '.') and "photo.png." (empty last extension) fail |
| `Lifecycle.AdminTarget` | app.py:248-250 | the form value is accepted exactly when it is "confirmed" or "rejected", and the status chosen has that name |
| `Lifecycle.UpdateStatus` | app.py:247-259 | succeeds exactly for a requested "confirmed"/"rejected", whatever the current status; sets a status with that name and changes nothing else; otherwise InvalidStatus |
| `Lifecycle.Pay` | app.py:269-278 | succeeds exactly when the status is confirmed or pending; the result is the booking with status paid; otherwise NotPayable |
| `Lifecycle.Cancel` | app.py:400-409 | succeeds exactly when the status is confirmed, pending or paid; the result is the booking with status cancelled; otherwise NotCancellable |
| `Lifecycle.AttachProof` | app.py:364-391 | succeeds exactly for a present, non-empty file name that passes `allowed_file`; sets the proof reference and pending_verification from any status; the three refusals in the code's order |
| `Lifecycle.Step` | app.py:244-411 | no booking route ever sets pending; only status and proof change, and only the upload touches the proof |
| `Lifecycle.Run` | app.py:244-411 | a booking after a series of route requests, each refused one leaving it unchanged; without an upload among them the proof reference never changes |
| `Lifecycle.PendingNeverReturns` | app.py:244-411 | after any series of requests the other columns are unchanged, and a booking that ends pending was pending from the start with every request refused |
| `Lifecycle.PayTwiceRefused` | app.py:269-278 | a second mark-paid is refused, so paying twice ends where paying once does |
| `Lifecycle.CancelTwiceRefused` | app.py:400-409 | a second cancel is refused |
| `Lifecycle.UpdateStatusRepeatAccepted` | app.py:250-251 | repeating an accepted status update is accepted again and gives the same booking |
| `Lifecycle.UploadFromAnyStatus` | app.py:374-381 | an accepted file name moves a booking in any status to pending_verification |
| `Ledger.FirstIndex` | app.py:131-135 | `.first()`: the earliest row satisfying the filter, or None exactly when no row does |
| `Ledger.StallIndex` | app.py:156 | the lookup of `Stall.query.get_or_404`: a stall with that id, or None exactly when no stall has it |
| `Ledger.BookingIndex` | app.py:247 | the lookup of `Booking.query.get_or_404`: a booking with that id, or None exactly when no booking has it |
| `Ledger.SameDayBooking` | app.py:160-164 | the first booking of the stall with start = end = the day, in any status; None exactly when there is none |
| `Ledger.StallReference` | app.py:341 | a booking that references the stall, or None exactly when none does |
| `Ledger.NextId` | app.py:87 | the new primary key exceeds every existing booking id, and it is one past the largest (1 for an empty table) |
| `Ledger.Book` | app.py:154-200 | refusals in the code's order: NotFound, then AlreadyBookedToday whatever that booking's status, then MissingVendorDetails; otherwise a pending [today, today] booking at the stall's daily price, with no proof or email and a new id |
| `Ledger.BookPreservesInvariant` | app.py:171-199 | appending the booking keeps ids unique, references valid and every stall-day single-booked |
| `Ledger.BookedStallShowsPending` | app.py:131-196 | after a booking is made, the listing shows the stall as pending for that day |
| `Ledger.Perform` | app.py:244-411 | NotFound when no row has the id; on success only the row with that id changes, and it changes as the route's rule says |
| `Ledger.PerformOnBooking` | app.py:244-411 | with unique ids, a request succeeds exactly when the route accepts the booking; on success that row is replaced, and on refusal the route's error is returned |
| `Ledger.PerformNeverCreatesPending` | app.py:244-411 | after any status route, every pending booking is one that was already pending and unchanged |
| `Ledger.PerformKeepsSameDay` | app.py:160-164 | a status route leaves the result of the same-day query unchanged for every stall and day |
| `Ledger.RefusedAfterAnyStatusChange` | app.py:160-183 | once a stall has a booking for today, no status change (rejecting or cancelling included) lets a new booking for today through |
| `Ledger.PerformPreservesInvariant` | app.py:244-411 | status routes keep ids unique, references valid and every stall-day single-booked |
| `Ledger.DeleteStall` | app.py:336-353 | NotFound for an unknown stall; refused with StallHasBookings exactly when some booking references it; otherwise exactly that stall's row is cut out |
| `Ledger.DeleteRemovesOnlyThatStall` | app.py:345-347 | with unique ids, the remaining stalls are exactly the old ones minus the deleted id |
| `Ledger.DeletePreservesInvariant` | app.py:339-347 | the guard keeps every booking's stall present after the deletion |
| `Ledger.Classify` | app.py:137-144 | a found booking never shows as available; it shows pending exactly when its status is pending, and occupied for approved and every other status |
| `Ledger.DisplayOf` | app.py:129-146 | available exactly when no booking for [day, day] exists; pending exactly when the first same-day booking is pending; otherwise occupied |
| `Ledger.DisplayUnderInvariant` | app.py:131-144 | with no double booking, pending exactly when a pending booking for [day, day] exists, and occupied exactly when one in another status does |
| `App.Market.constructor` | app.py:74-100 | the tables start as given, and the invariant holds |
| `App.Market.Index` | app.py:124-151 | one row per stall, in table order, with the status `DisplayOf` gives for today; available exactly when no same-day booking exists |
| `App.Market.BookStall` | app.py:154-212 | appends exactly the booking `Book` allows, or leaves the bookings unchanged and returns its refusal; stalls unchanged; invariant kept |
| `App.Market.Apply` | app.py:244-411 | the new bookings table is what `Perform` gives, or the old one on refusal; the length is kept and no booking becomes pending |
| `App.Market.UpdateBookingStatus` | app.py:244-261 | the bookings table afterwards is `Perform` with the requested status, or unchanged on refusal |
| `App.Market.PayBooking` | app.py:263-282 | the bookings table afterwards is `Perform` with mark-paid, or unchanged on refusal |
| `App.Market.UploadPaymentProof` | app.py:360-393 | the bookings table afterwards is `Perform` with the upload, or unchanged on refusal |
| `App.Market.CancelBooking` | app.py:395-411 | the bookings table afterwards is `Perform` with cancel, or unchanged on refusal |
| `App.Market.DeleteStall` | app.py:336-353 | the stalls table afterwards is what `Ledger.DeleteStall` gives, or unchanged on refusal; bookings unchanged; invariant kept |

## Left out

- HTTP and Flask plumbing is not modelled: routing, templates, `flash`, redirects and `url_for`. The GET branches of `book_stall` and `pay_booking` only render a page, so they are not modelled either.
- SQLAlchemy sessions, queries and transactions become sequence operations. A commit that fails for another reason than the NOT NULL vendor columns is caught and rolled back in the code. The model does not produce those failures.
- Login, both `admin_required` decorators, the `User` table and password hashing (werkzeug) are not modelled. The admin routes are methods with no caller check.
- The decorator in force (app.py:107-114) tests `session['logged_in']` and `session['role']`. No code sets either one: `login` only calls `login_user` (app.py:225). As written, the four admin routes would always redirect. The model assumes an admin request reaches the handler.
- Each request is modelled as running alone. The race between the same-day check (app.py:160-164) and the insert (app.py:199-200) is not captured: two concurrent bookings can both pass the check, and no unique constraint stops the second insert.
- `.first()` (app.py:135, 164, 341) and `.all()` (app.py:127) carry no ORDER BY. The model reads them in insertion order, as SQLite's plain rowid scan returns rows, but the database does not guarantee that order. Under the invariant, `Ledger.DisplayUnderInvariant` shows that the choice of "first" same-day row does not change the listing.
- `add_stall`, `edit_stall`, `admin_dashboard`, `booking_success` and `payment` are admin forms or read-only pages. They are not part of this model. Stalls come from the constructor.
- Saving the uploaded file, `secure_filename` and the timestamped file name are I/O and depend on the wall clock. The resulting URL is the `proofUrl` parameter.
- The wall clock is not modelled: "today" is a parameter. As written, `datetime.date.today()` at app.py:126 and app.py:157 runs after `from datetime import datetime` at app.py:119, so it would not resolve to a date. The model assumes "today" is obtained.
- The status column is a free `String(20)`, but `Records.Status` has only the seven values the code names. A stored row with any other text would behave like `Approved` in every modelled route. The listing shows it occupied, pay and cancel refuse it, and update and upload accept it.
- Prices are `db.Float` columns. They become integers: the only arithmetic is copying `price_per_day`.
- The `booked_at` (server clock) and `image_url` columns are not modelled. The unique stall name and the string length limits are not modelled either. None of the modelled routes reads them.
- The duplicate `status` column default (app.py:92 and 99) has no effect: `book_stall` always writes `pending`.
- `Upload.Lower`: only ASCII `A`-`Z` are folded. Python's full Unicode `str.lower()` is not modelled.
- The first `allowed_file` (app.py:20-21) is shadowed by the one at app.py:32-34. Both test against the same four extensions.
- The seed block under `__main__` is setup data, not behaviour.
