/**
 * The two persisted records, `Stall` and `Booking`, and the values their
 * columns take. Dates are day numbers, prices whole units of currency.
 */
module Records {
  import opened Wrappers

  /**
   * The values the routes write into `Booking.status`. `Approved` is written
   * by no route, but the listing page tests for it, so a row carrying it may
   * already be stored. The column is free text, and any other stored
   * value would behave like `Approved` in every route modelled here.
   */
  datatype Status =
    | Pending
    | PendingVerification
    | Confirmed
    | Approved
    | Rejected
    | Paid
    | Cancelled

  /** The text stored in the status column. */
  function Name(s: Status): string
  {
    match s
    case Pending => "pending"
    case PendingVerification => "pending_verification"
    case Confirmed => "confirmed"
    case Approved => "approved"
    case Rejected => "rejected"
    case Paid => "paid"
    case Cancelled => "cancelled"
  }

  datatype Stall = Stall(id: nat, name: string, pricePerDay: int, description: Option<string>)

  datatype Booking = Booking(
    id: nat,
    stallId: nat,
    vendorName: string,
    vendorPhone: string,
    vendorEmail: Option<string>,
    startDate: int,
    endDate: int,
    totalPrice: int,
    status: Status,
    paymentProofUrl: Option<string>)

  /** Why a request was refused; each leaves every stored row as it was. */
  datatype Error =
    | NotFound              // get_or_404 found no row
    | AlreadyBookedToday    // the stall already has a booking for [today, today]
    | MissingVendorDetails  // vendor name or phone absent: the NOT NULL insert is rolled back
    | InvalidStatus         // the admin asked for a status other than confirmed/rejected
    | NotPayable            // the booking is neither confirmed nor pending
    | NotCancellable        // the booking is not confirmed, pending or paid
    | NoFilePart            // the upload request has no payment_proof part
    | NoFileSelected        // the uploaded file has an empty name
    | DisallowedFileType    // the file name fails allowed_file
    | StallHasBookings      // a booking still references the stall

  /** `b` equals `a` in every column except status and payment proof. */
  predicate SameRecord(a: Booking, b: Booking)
  {
    a.(status := b.status, paymentProofUrl := b.paymentProofUrl) == b
  }
}
