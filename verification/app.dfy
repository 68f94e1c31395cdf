/**
 * The route handlers of the booking application, on an in-memory copy of
 * the two tables. Each method is one POST request (or the index page);
 * the wall clock's "today", the saved proof's URL and the form fields are
 * parameters.
 */
module App {
  import opened Wrappers
  import opened Records
  import opened Ledger
  import Lifecycle

  /** One entry of the index page's `stalls_with_status`. */
  datatype StallRow = StallRow(stall: Stall, status: Display)

  class Market {
    var stalls: seq<Stall>
    var bookings: seq<Booking>

    ghost predicate Valid()
      reads this
    {
      Invariant(stalls, bookings)
    }

    constructor (catalog: seq<Stall>, existing: seq<Booking>)
      requires Invariant(catalog, existing)
      ensures Valid() && stalls == catalog && bookings == existing
    {
      stalls := catalog;
      bookings := existing;
    }

    /** index: one row per stall, in table order, with the status shown for `today`. */
    method Index(today: int) returns (rows: seq<StallRow>)
      ensures |rows| == |stalls|
      ensures forall k :: 0 <= k < |rows| ==>
        rows[k] == StallRow(stalls[k], DisplayOf(bookings, stalls[k].id, today))
      ensures forall k :: 0 <= k < |rows| ==>
        (rows[k].status == DisplayAvailable <==> !BookedOn(bookings, stalls[k].id, today))
    {
      rows := [];
      var k := 0;
      while k < |stalls|
        invariant 0 <= k <= |stalls|
        invariant |rows| == k
        invariant forall j :: 0 <= j < k ==> rows[j] == StallRow(stalls[j], DisplayOf(bookings, stalls[j].id, today))
      {
        var status := DisplayAvailable;
        match SameDayBooking(bookings, stalls[k].id, today) {
          case Some(i) =>
            if bookings[i].status == Approved {
              status := DisplayOccupied;
            } else if bookings[i].status == Pending {
              status := DisplayPending;
            } else {
              status := DisplayOccupied;
            }
          case None =>
        }
        rows := rows + [StallRow(stalls[k], status)];
        k := k + 1;
      }
    }

    /** book_stall (POST): insert a pending booking of `stallId` for [today, today]. */
    method BookStall(stallId: nat, today: int, vendorName: Option<string>, vendorPhone: Option<string>)
      returns (r: Result<nat, Error>)
      requires Valid()
      modifies this
      ensures Valid() && stalls == old(stalls)
      ensures match Book(old(stalls), old(bookings), stallId, today, vendorName, vendorPhone)
        case Ok(b) => r == Ok(b.id) && bookings == old(bookings) + [b]
        case Err(e) => r == Err(e) && bookings == old(bookings)
    {
      var s := StallIndex(stalls, stallId);
      if s.None? {
        return Err(NotFound);
      }
      if SameDayBooking(bookings, stallId, today).Some? {
        return Err(AlreadyBookedToday);
      }
      if vendorName.None? || vendorPhone.None? {
        return Err(MissingVendorDetails);
      }
      var b := Booking(NextId(bookings), stallId, vendorName.value, vendorPhone.value, None,
                       today, today, stalls[s.value].pricePerDay, Pending, None);
      BookPreservesInvariant(stalls, bookings, stallId, today, vendorName, vendorPhone);
      bookings := bookings + [b];
      r := Ok(b.id);
    }

    /** The common body of the four routes that act on one existing booking. */
    method Apply(id: nat, a: Lifecycle.Action) returns (r: Outcome<Error>)
      requires Valid()
      modifies this
      ensures Valid() && stalls == old(stalls)
      ensures match Perform(old(bookings), id, a)
        case Ok(after) => r == Pass && bookings == after
        case Err(e) => r == Fail(e) && bookings == old(bookings)
      ensures |bookings| == |old(bookings)|
      ensures forall k :: 0 <= k < |bookings| && bookings[k].status == Pending ==> bookings[k] == old(bookings)[k]
    {
      var i := BookingIndex(bookings, id);
      if i.None? {
        return Fail(NotFound);
      }
      match Lifecycle.Step(bookings[i.value], a)
      case Ok(b) =>
        PerformPreservesInvariant(stalls, bookings, id, a);
        PerformNeverCreatesPending(bookings, id, a);
        bookings := bookings[i.value := b];
        r := Pass;
      case Err(e) =>
        r := Fail(e);
    }

    /** update_booking_status: set "confirmed" or "rejected", from any status. */
    method UpdateBookingStatus(id: nat, requested: Option<string>) returns (r: Outcome<Error>)
      requires Valid()
      modifies this
      ensures Valid() && stalls == old(stalls)
      ensures match Perform(old(bookings), id, Lifecycle.SetStatus(requested))
        case Ok(after) => r == Pass && bookings == after
        case Err(e) => r == Fail(e) && bookings == old(bookings)
    {
      r := Apply(id, Lifecycle.SetStatus(requested));
    }

    /** pay_booking (POST): confirmed or pending becomes paid. */
    method PayBooking(id: nat) returns (r: Outcome<Error>)
      requires Valid()
      modifies this
      ensures Valid() && stalls == old(stalls)
      ensures match Perform(old(bookings), id, Lifecycle.MarkPaid)
        case Ok(after) => r == Pass && bookings == after
        case Err(e) => r == Fail(e) && bookings == old(bookings)
    {
      r := Apply(id, Lifecycle.MarkPaid);
    }

    /** upload_payment_proof: an accepted file name records the proof and sets pending_verification. */
    method UploadPaymentProof(id: nat, fileName: Option<string>, proofUrl: string) returns (r: Outcome<Error>)
      requires Valid()
      modifies this
      ensures Valid() && stalls == old(stalls)
      ensures match Perform(old(bookings), id, Lifecycle.UploadProof(fileName, proofUrl))
        case Ok(after) => r == Pass && bookings == after
        case Err(e) => r == Fail(e) && bookings == old(bookings)
    {
      r := Apply(id, Lifecycle.UploadProof(fileName, proofUrl));
    }

    /** cancel_booking: confirmed, pending or paid becomes cancelled. */
    method CancelBooking(id: nat) returns (r: Outcome<Error>)
      requires Valid()
      modifies this
      ensures Valid() && stalls == old(stalls)
      ensures match Perform(old(bookings), id, Lifecycle.CancelBooking)
        case Ok(after) => r == Pass && bookings == after
        case Err(e) => r == Fail(e) && bookings == old(bookings)
    {
      r := Apply(id, Lifecycle.CancelBooking);
    }

    /** delete_stall: remove the stall unless a booking references it. */
    method DeleteStall(stallId: nat) returns (r: Outcome<Error>)
      requires Valid()
      modifies this
      ensures Valid() && bookings == old(bookings)
      ensures match Ledger.DeleteStall(old(stalls), old(bookings), stallId)
        case Ok(after) => r == Pass && stalls == after
        case Err(e) => r == Fail(e) && stalls == old(stalls)
    {
      var i := StallIndex(stalls, stallId);
      if i.None? {
        return Fail(NotFound);
      }
      if StallReference(bookings, stallId).Some? {
        return Fail(StallHasBookings);
      }
      DeletePreservesInvariant(stalls, bookings, stallId);
      stalls := stalls[..i.value] + stalls[i.value + 1..];
      r := Pass;
    }
  }
}
