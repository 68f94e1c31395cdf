/**
 * The stall and booking tables as sequences in insertion order, the
 * queries the routes run on them, and what each write route does to them,
 * as functions of the tables before the request. The queries have no
 * ORDER BY. Insertion order is the order of a plain rowid scan, which the
 * database does not guarantee.
 */
module Ledger {
  import opened Wrappers
  import opened Records
  import Lifecycle

  // ---------------------------------------------------------------- queries

  /** `filter_by(...).first()`: the earliest row satisfying `p`. */
  function FirstIndex<T>(s: seq<T>, p: T -> bool): (r: Option<nat>)
    ensures r.Some? ==> r.value < |s| && p(s[r.value])
    ensures r.Some? ==> forall j :: 0 <= j < r.value ==> !p(s[j])
    ensures r.None? ==> forall j :: 0 <= j < |s| ==> !p(s[j])
  {
    if |s| == 0 then None
    else if p(s[0]) then Some(0)
    else match FirstIndex(s[1..], p)
      case None => None
      case Some(k) => Some(k + 1)
  }

  /** The lookup of `Stall.query.get_or_404(id)`; None is the 404. */
  function StallIndex(stalls: seq<Stall>, id: nat): (r: Option<nat>)
    ensures r.Some? ==> r.value < |stalls| && stalls[r.value].id == id
    ensures r.None? ==> !HasStall(stalls, id)
  {
    FirstIndex(stalls, (st: Stall) => st.id == id)
  }

  /** The lookup of `Booking.query.get_or_404(id)`; None is the 404. */
  function BookingIndex(bookings: seq<Booking>, id: nat): (r: Option<nat>)
    ensures r.Some? ==> r.value < |bookings| && bookings[r.value].id == id
    ensures r.None? ==> forall k :: 0 <= k < |bookings| ==> bookings[k].id != id
  {
    FirstIndex(bookings, (b: Booking) => b.id == id)
  }

  ghost predicate HasStall(stalls: seq<Stall>, id: nat)
  {
    exists i :: 0 <= i < |stalls| && stalls[i].id == id
  }

  /** A booking of stall `stallId` with start and end both equal to `day`. */
  predicate IsSameDay(b: Booking, stallId: nat, day: int)
  {
    b.stallId == stallId && b.startDate == day && b.endDate == day
  }

  ghost predicate BookedOn(bookings: seq<Booking>, stallId: nat, day: int)
  {
    exists k :: 0 <= k < |bookings| && IsSameDay(bookings[k], stallId, day)
  }

  /** `filter_by(stall_id=..., start_date=day, end_date=day).first()`, whatever the status. */
  function SameDayBooking(bookings: seq<Booking>, stallId: nat, day: int): (r: Option<nat>)
    ensures r.Some? ==> r.value < |bookings| && IsSameDay(bookings[r.value], stallId, day)
    ensures r.Some? ==> forall j :: 0 <= j < r.value ==> !IsSameDay(bookings[j], stallId, day)
    ensures r.None? <==> !BookedOn(bookings, stallId, day)
  {
    FirstIndex(bookings, (b: Booking) => IsSameDay(b, stallId, day))
  }

  /** `filter_by(stall_id=...).first()`: the first booking that references the stall. */
  function StallReference(bookings: seq<Booking>, stallId: nat): (r: Option<nat>)
    ensures r.Some? ==> r.value < |bookings| && bookings[r.value].stallId == stallId
    ensures r.None? ==> forall k :: 0 <= k < |bookings| ==> bookings[k].stallId != stallId
  {
    FirstIndex(bookings, (b: Booking) => b.stallId == stallId)
  }

  /** The id the database gives the next inserted booking: one past the largest id, 1 for an empty table. */
  function NextId(bookings: seq<Booking>): (r: nat)
    ensures r >= 1 && forall k :: 0 <= k < |bookings| ==> bookings[k].id < r
    ensures r == 1 || exists k :: 0 <= k < |bookings| && bookings[k].id + 1 == r
  {
    if bookings == [] then 1
    else
      var m := NextId(bookings[..|bookings| - 1]);
      var last := bookings[|bookings| - 1].id;
      if last < m then m else last + 1
  }

  // -------------------------------------------------------------- invariant

  ghost predicate UniqueStallIds(stalls: seq<Stall>)
  {
    forall i, j :: 0 <= i < j < |stalls| ==> stalls[i].id != stalls[j].id
  }

  ghost predicate UniqueBookingIds(bookings: seq<Booking>)
  {
    forall i, j :: 0 <= i < j < |bookings| ==> bookings[i].id != bookings[j].id
  }

  /** Every booking references a stall that exists. */
  ghost predicate ReferencesExist(stalls: seq<Stall>, bookings: seq<Booking>)
  {
    forall k :: 0 <= k < |bookings| ==> HasStall(stalls, bookings[k].stallId)
  }

  /** No two bookings of one stall both cover exactly the same single day. */
  ghost predicate NoDoubleBooking(bookings: seq<Booking>)
  {
    forall i, j :: 0 <= i < j < |bookings| && bookings[i].stallId == bookings[j].stallId &&
      bookings[i].startDate == bookings[i].endDate && bookings[j].startDate == bookings[j].endDate
      ==> bookings[i].startDate != bookings[j].startDate
  }

  ghost predicate Invariant(stalls: seq<Stall>, bookings: seq<Booking>)
  {
    && UniqueStallIds(stalls)
    && UniqueBookingIds(bookings)
    && ReferencesExist(stalls, bookings)
    && NoDoubleBooking(bookings)
  }

  // -------------------------------------------------------------- book_stall

  /**
   * The row book_stall inserts, or why it inserts none: the stall must
   * exist, must have no booking for [today, today] in any status, and the
   * vendor's name and phone must be present for the NOT NULL insert.
   */
  function Book(stalls: seq<Stall>, bookings: seq<Booking>, stallId: nat, today: int,
                vendorName: Option<string>, vendorPhone: Option<string>): (r: Result<Booking, Error>)
    ensures r.Ok? <==> HasStall(stalls, stallId) && !BookedOn(bookings, stallId, today) &&
                       vendorName.Some? && vendorPhone.Some?
    ensures !HasStall(stalls, stallId) ==> r == Err(NotFound)
    ensures HasStall(stalls, stallId) && BookedOn(bookings, stallId, today) ==> r == Err(AlreadyBookedToday)
    ensures r.Err? && r.error != NotFound && r.error != AlreadyBookedToday ==> r.error == MissingVendorDetails
    ensures r.Ok? ==> IsSameDay(r.value, stallId, today) && r.value.status == Pending
    ensures r.Ok? ==> r.value.vendorName == vendorName.value && r.value.vendorPhone == vendorPhone.value
    ensures r.Ok? ==> r.value.vendorEmail.None? && r.value.paymentProofUrl.None?
    ensures r.Ok? ==> exists i :: 0 <= i < |stalls| && stalls[i].id == stallId && r.value.totalPrice == stalls[i].pricePerDay
    ensures r.Ok? ==> forall k :: 0 <= k < |bookings| ==> bookings[k].id != r.value.id
  {
    match StallIndex(stalls, stallId)
    case None => Err(NotFound)
    case Some(i) =>
      if SameDayBooking(bookings, stallId, today).Some? then Err(AlreadyBookedToday)
      else if vendorName.None? || vendorPhone.None? then Err(MissingVendorDetails)
      else Ok(Booking(NextId(bookings), stallId, vendorName.value, vendorPhone.value, None,
                      today, today, stalls[i].pricePerDay, Pending, None))
  }

  /** Appending the new booking keeps the invariant: its day was free and its id is new. */
  lemma BookPreservesInvariant(stalls: seq<Stall>, bookings: seq<Booking>, stallId: nat, today: int,
                               vendorName: Option<string>, vendorPhone: Option<string>)
    requires Invariant(stalls, bookings)
    requires Book(stalls, bookings, stallId, today, vendorName, vendorPhone).Ok?
    ensures Invariant(stalls, bookings + [Book(stalls, bookings, stallId, today, vendorName, vendorPhone).value])
  {
    var b := Book(stalls, bookings, stallId, today, vendorName, vendorPhone).value;
    var after := bookings + [b];
    forall i, j | 0 <= i < j < |after| && after[i].stallId == after[j].stallId &&
      after[i].startDate == after[i].endDate && after[j].startDate == after[j].endDate
      ensures after[i].startDate != after[j].startDate
    {
      if j == |bookings| && after[i].startDate == today {
        assert IsSameDay(bookings[i], stallId, today);
      }
    }
    assert ReferencesExist(stalls, after) by {
      forall k | 0 <= k < |after| ensures HasStall(stalls, after[k].stallId) {
        if k < |bookings| { assert after[k] == bookings[k]; }
      }
    }
  }

  /** After a booking is made, the listing shows the stall as pending for that day. */
  lemma BookedStallShowsPending(stalls: seq<Stall>, bookings: seq<Booking>, stallId: nat, today: int,
                                vendorName: Option<string>, vendorPhone: Option<string>)
    requires Book(stalls, bookings, stallId, today, vendorName, vendorPhone).Ok?
    ensures DisplayOf(bookings + [Book(stalls, bookings, stallId, today, vendorName, vendorPhone).value], stallId, today)
            == DisplayPending
  {
    var b := Book(stalls, bookings, stallId, today, vendorName, vendorPhone).value;
    var after := bookings + [b];
    var first := SameDayBooking(after, stallId, today);
    assert IsSameDay(after[|bookings|], stallId, today);
  }

  // ----------------------------------------------------- booking status routes

  /**
   * A request on booking `id`: refused with NotFound when no row has that id,
   * otherwise the row is replaced by what the route makes of it.
   */
  function Perform(bookings: seq<Booking>, id: nat, a: Lifecycle.Action): (r: Result<seq<Booking>, Error>)
    ensures (forall k :: 0 <= k < |bookings| ==> bookings[k].id != id) ==> r == Err(NotFound)
    ensures r.Ok? ==> |r.value| == |bookings|
    ensures r.Ok? ==> forall k :: 0 <= k < |bookings| ==>
      r.value[k] == bookings[k] || (bookings[k].id == id && Lifecycle.Step(bookings[k], a) == Ok(r.value[k]))
  {
    match BookingIndex(bookings, id)
    case None => Err(NotFound)
    case Some(i) =>
      match Lifecycle.Step(bookings[i], a)
      case Ok(b) => Ok(bookings[i := b])
      case Err(e) => Err(e)
  }

  /** With unique ids, a request succeeds exactly when the route accepts the one booking with that id. */
  lemma PerformOnBooking(bookings: seq<Booking>, k: nat, a: Lifecycle.Action)
    requires UniqueBookingIds(bookings)
    requires k < |bookings|
    ensures var r := Perform(bookings, bookings[k].id, a);
            match Lifecycle.Step(bookings[k], a)
            case Ok(b) => r == Ok(bookings[k := b])
            case Err(e) => r == Err(e)
  {
    assert BookingIndex(bookings, bookings[k].id).Some?;
  }

  /** No status route turns a booking into a pending one. */
  lemma PerformNeverCreatesPending(bookings: seq<Booking>, id: nat, a: Lifecycle.Action)
    requires Perform(bookings, id, a).Ok?
    ensures forall k :: 0 <= k < |bookings| && Perform(bookings, id, a).value[k].status == Pending ==>
      Perform(bookings, id, a).value[k] == bookings[k]
  {
  }

  /**
   * A status route never frees a stall's day: the same-day query, which
   * ignores the status, finds the same row before and after.
   */
  lemma PerformKeepsSameDay(bookings: seq<Booking>, id: nat, a: Lifecycle.Action, stallId: nat, day: int)
    requires Perform(bookings, id, a).Ok?
    ensures SameDayBooking(Perform(bookings, id, a).value, stallId, day) == SameDayBooking(bookings, stallId, day)
  {
    var after := Perform(bookings, id, a).value;
    assert forall k :: 0 <= k < |bookings| ==> (IsSameDay(after[k], stallId, day) <==> IsSameDay(bookings[k], stallId, day));
  }

  /**
   * In particular, rejecting or cancelling a booking for today leaves the
   * stall refused for a new booking today.
   */
  lemma RefusedAfterAnyStatusChange(stalls: seq<Stall>, bookings: seq<Booking>, id: nat, a: Lifecycle.Action,
                                    stallId: nat, today: int, vendorName: Option<string>, vendorPhone: Option<string>)
    requires Perform(bookings, id, a).Ok?
    requires HasStall(stalls, stallId) && BookedOn(bookings, stallId, today)
    ensures Book(stalls, Perform(bookings, id, a).value, stallId, today, vendorName, vendorPhone) == Err(AlreadyBookedToday)
  {
    PerformKeepsSameDay(bookings, id, a, stallId, today);
  }

  lemma PerformPreservesInvariant(stalls: seq<Stall>, bookings: seq<Booking>, id: nat, a: Lifecycle.Action)
    requires Invariant(stalls, bookings)
    requires Perform(bookings, id, a).Ok?
    ensures Invariant(stalls, Perform(bookings, id, a).value)
  {
    var after := Perform(bookings, id, a).value;
    assert forall k :: 0 <= k < |bookings| ==> SameRecord(bookings[k], after[k]);
  }

  // ----------------------------------------------------------- delete_stall

  /** delete_stall: refused while any booking references the stall. */
  function DeleteStall(stalls: seq<Stall>, bookings: seq<Booking>, stallId: nat): (r: Result<seq<Stall>, Error>)
    ensures !HasStall(stalls, stallId) ==> r == Err(NotFound)
    ensures HasStall(stalls, stallId) ==> (r.Ok? <==> forall k :: 0 <= k < |bookings| ==> bookings[k].stallId != stallId)
    ensures HasStall(stalls, stallId) && r.Err? ==> r.error == StallHasBookings
    ensures r.Ok? ==> exists i :: 0 <= i < |stalls| && stalls[i].id == stallId && r.value == stalls[..i] + stalls[i + 1..]
  {
    match StallIndex(stalls, stallId)
    case None => Err(NotFound)
    case Some(i) =>
      if StallReference(bookings, stallId).Some? then Err(StallHasBookings)
      else Ok(stalls[..i] + stalls[i + 1..])
  }

  /** Cutting out position `i` keeps every other row, in order. */
  lemma CutAt(stalls: seq<Stall>, i: nat)
    requires i < |stalls|
    ensures |stalls[..i] + stalls[i + 1..]| == |stalls| - 1
    ensures forall m :: 0 <= m < i ==> (stalls[..i] + stalls[i + 1..])[m] == stalls[m]
    ensures forall m :: i < m < |stalls| ==> (stalls[..i] + stalls[i + 1..])[m - 1] == stalls[m]
  {
  }

  /** With unique ids, cutting out position `i` removes exactly the rows with that row's id. */
  lemma CutMembers(stalls: seq<Stall>, i: nat)
    requires UniqueStallIds(stalls)
    requires i < |stalls|
    ensures forall st :: st in stalls[..i] + stalls[i + 1..] <==> st in stalls && st.id != stalls[i].id
  {
    var after := stalls[..i] + stalls[i + 1..];
    CutAt(stalls, i);
    forall st | st in after ensures st in stalls && st.id != stalls[i].id {
      var j :| 0 <= j < |after| && after[j] == st;
      var j' := if j < i then j else j + 1;
      assert after[j] == stalls[j'];
    }
    forall st | st in stalls && st.id != stalls[i].id ensures st in after {
      var j :| 0 <= j < |stalls| && stalls[j] == st;
      var j' := if j < i then j else j - 1;
      assert after[j'] == st;
    }
  }

  /** With unique ids, a deletion removes that stall and keeps every other one. */
  lemma DeleteRemovesOnlyThatStall(stalls: seq<Stall>, bookings: seq<Booking>, stallId: nat)
    requires UniqueStallIds(stalls)
    requires DeleteStall(stalls, bookings, stallId).Ok?
    ensures forall st :: st in DeleteStall(stalls, bookings, stallId).value <==> st in stalls && st.id != stallId
  {
    var i := StallIndex(stalls, stallId).value;
    assert DeleteStall(stalls, bookings, stallId).value == stalls[..i] + stalls[i + 1..];
    CutMembers(stalls, i);
  }

  lemma CutKeepsUniqueIds(stalls: seq<Stall>, i: nat)
    requires UniqueStallIds(stalls)
    requires i < |stalls|
    ensures UniqueStallIds(stalls[..i] + stalls[i + 1..])
  {
    var after := stalls[..i] + stalls[i + 1..];
    CutAt(stalls, i);
    forall a, b | 0 <= a < b < |after| ensures after[a].id != after[b].id {
      var a', b' := if a < i then a else a + 1, if b < i then b else b + 1;
      assert after[a] == stalls[a'] && after[b] == stalls[b'];
    }
  }

  /** Cutting out a stall that no booking references keeps every reference valid. */
  lemma CutKeepsReferences(stalls: seq<Stall>, bookings: seq<Booking>, i: nat)
    requires ReferencesExist(stalls, bookings)
    requires i < |stalls|
    requires forall k :: 0 <= k < |bookings| ==> bookings[k].stallId != stalls[i].id
    ensures ReferencesExist(stalls[..i] + stalls[i + 1..], bookings)
  {
    var after := stalls[..i] + stalls[i + 1..];
    CutAt(stalls, i);
    forall k | 0 <= k < |bookings| ensures HasStall(after, bookings[k].stallId) {
      var j :| 0 <= j < |stalls| && stalls[j].id == bookings[k].stallId;
      var j' := if j < i then j else j - 1;
      assert after[j'] == stalls[j];
    }
  }

  lemma DeletePreservesInvariant(stalls: seq<Stall>, bookings: seq<Booking>, stallId: nat)
    requires Invariant(stalls, bookings)
    requires DeleteStall(stalls, bookings, stallId).Ok?
    ensures Invariant(DeleteStall(stalls, bookings, stallId).value, bookings)
  {
    var i := StallIndex(stalls, stallId).value;
    assert DeleteStall(stalls, bookings, stallId).value == stalls[..i] + stalls[i + 1..];
    CutKeepsUniqueIds(stalls, i);
    CutKeepsReferences(stalls, bookings, i);
  }

  // ---------------------------------------------------------------- listing

  /** The status the index page shows for a stall. */
  datatype Display =
    | DisplayAvailable  // "available"
    | DisplayPending    // "pending"
    | DisplayOccupied   // "occupied"

  /** The index page's mapping from the found booking's status; "approved" and every other status show occupied. */
  function Classify(s: Status): (r: Display)
    ensures r != DisplayAvailable
    ensures r == DisplayPending <==> s == Pending
  {
    if s == Approved then DisplayOccupied
    else if s == Pending then DisplayPending
    else DisplayOccupied
  }

  /** What the index page shows for stall `stallId` on `day`, from the first same-day booking. */
  function DisplayOf(bookings: seq<Booking>, stallId: nat, day: int): (r: Display)
    ensures r == DisplayAvailable <==> !BookedOn(bookings, stallId, day)
    ensures r == DisplayPending <==>
      SameDayBooking(bookings, stallId, day).Some? &&
      bookings[SameDayBooking(bookings, stallId, day).value].status == Pending
  {
    match SameDayBooking(bookings, stallId, day)
    case None => DisplayAvailable
    case Some(i) => Classify(bookings[i].status)
  }

  /**
   * When no stall-day is double-booked, which row is "first" does not
   * matter: a stall shows pending exactly when a pending booking for
   * [day, day] exists, and occupied exactly when one in any other status
   * does. A multi-day booking that spans the day is not counted.
   */
  lemma DisplayUnderInvariant(bookings: seq<Booking>, stallId: nat, day: int)
    requires NoDoubleBooking(bookings)
    ensures DisplayOf(bookings, stallId, day) == DisplayPending <==>
      exists k :: 0 <= k < |bookings| && IsSameDay(bookings[k], stallId, day) && bookings[k].status == Pending
    ensures DisplayOf(bookings, stallId, day) == DisplayOccupied <==>
      exists k :: 0 <= k < |bookings| && IsSameDay(bookings[k], stallId, day) && bookings[k].status != Pending
  {
    var first := SameDayBooking(bookings, stallId, day);
    forall k | 0 <= k < |bookings| && IsSameDay(bookings[k], stallId, day)
      ensures first.Some? && bookings[k] == bookings[first.value]
    {
    }
  }
}
