/**
 * The status changes made by the four booking routes, each on a single
 * booking: the admin status update, marking paid, cancelling, and the
 * vendor's payment-proof upload. A refused change yields an error and no
 * booking, so the stored row stays as it was.
 */
module Lifecycle {
  import opened Wrappers
  import opened Records
  import Upload

  /** The status the admin form may set: only "confirmed" or "rejected". */
  function AdminTarget(requested: Option<string>): (r: Option<Status>)
    ensures r.Some? <==> requested == Some("confirmed") || requested == Some("rejected")
    ensures r.Some? ==> (r.value == Confirmed || r.value == Rejected) && Name(r.value) == requested.value
  {
    match requested
    case None => None
    case Some(s) =>
      if s == Name(Confirmed) then Some(Confirmed)
      else if s == Name(Rejected) then Some(Rejected)
      else None
  }

  /** update_booking_status: the requested status is set whatever the current one is. */
  function UpdateStatus(b: Booking, requested: Option<string>): (r: Result<Booking, Error>)
    ensures r.Ok? <==> requested == Some("confirmed") || requested == Some("rejected")
    ensures r.Ok? ==> SameRecord(b, r.value) && r.value.paymentProofUrl == b.paymentProofUrl
    ensures r.Ok? ==> Name(r.value.status) == requested.value
    ensures r.Err? ==> r.error == InvalidStatus
  {
    match AdminTarget(requested)
    case Some(s) => Ok(b.(status := s))
    case None => Err(InvalidStatus)
  }

  /** pay_booking: only a confirmed or pending booking becomes paid. */
  function Pay(b: Booking): (r: Result<Booking, Error>)
    ensures r.Ok? <==> b.status == Confirmed || b.status == Pending
    ensures r.Ok? ==> r.value == b.(status := Paid)
    ensures r.Err? ==> r.error == NotPayable
  {
    if b.status in {Confirmed, Pending} then Ok(b.(status := Paid)) else Err(NotPayable)
  }

  /** cancel_booking: only a confirmed, pending or paid booking becomes cancelled. */
  function Cancel(b: Booking): (r: Result<Booking, Error>)
    ensures r.Ok? <==> b.status == Confirmed || b.status == Pending || b.status == Paid
    ensures r.Ok? ==> r.value == b.(status := Cancelled)
    ensures r.Err? ==> r.error == NotCancellable
  {
    if b.status in {Confirmed, Pending, Paid} then Ok(b.(status := Cancelled)) else Err(NotCancellable)
  }

  /**
   * upload_payment_proof: `fileName` is the name of the `payment_proof` part
   * (None when the request has no such part) and `proofUrl` the reference the
   * saved file gets. Any status moves to pending_verification.
   */
  function AttachProof(b: Booking, fileName: Option<string>, proofUrl: string): (r: Result<Booking, Error>)
    ensures r.Ok? <==> fileName.Some? && fileName.value != "" && Upload.AllowedFile(fileName.value)
    ensures r.Ok? ==> r.value == b.(status := PendingVerification, paymentProofUrl := Some(proofUrl))
    ensures r.Err? && fileName.None? ==> r.error == NoFilePart
    ensures r.Err? && fileName == Some("") ==> r.error == NoFileSelected
    ensures r.Err? && fileName.Some? && fileName.value != "" ==> r.error == DisallowedFileType
  {
    match fileName
    case None => Err(NoFilePart)
    case Some(name) =>
      if name == "" then Err(NoFileSelected)
      else if Upload.AllowedFile(name) then Ok(b.(status := PendingVerification, paymentProofUrl := Some(proofUrl)))
      else Err(DisallowedFileType)
  }

  /** A request against one existing booking, as the four routes receive it. */
  datatype Action =
    | SetStatus(requested: Option<string>)
    | MarkPaid
    | CancelBooking
    | UploadProof(fileName: Option<string>, proofUrl: string)

  /** The effect of one request: no route ever sets `pending`, and only the upload touches the proof. */
  function Step(b: Booking, a: Action): (r: Result<Booking, Error>)
    ensures r.Ok? ==> SameRecord(b, r.value) && r.value.status != Pending
    ensures r.Ok? && !a.UploadProof? ==> r.value.paymentProofUrl == b.paymentProofUrl
  {
    match a
    case SetStatus(requested) => UpdateStatus(b, requested)
    case MarkPaid => Pay(b)
    case CancelBooking => Cancel(b)
    case UploadProof(fileName, proofUrl) => AttachProof(b, fileName, proofUrl)
  }

  /**
   * A booking after a series of requests, each refused one leaving it as it
   * was. Without an upload among them, the proof reference never changes.
   */
  function Run(b: Booking, actions: seq<Action>): (r: Booking)
    ensures (forall k :: 0 <= k < |actions| ==> !actions[k].UploadProof?) ==> r.paymentProofUrl == b.paymentProofUrl
    decreases |actions|
  {
    if actions == [] then b
    else match Step(b, actions[0])
      case Ok(next) => Run(next, actions[1..])
      case Err(_) => Run(b, actions[1..])
  }

  /**
   * No series of requests brings a booking back to pending: a booking that
   * is pending at the end was pending from the start and every request on
   * it was refused. Whatever happens, the non-status columns stay put.
   */
  lemma {:induction false} PendingNeverReturns(b: Booking, actions: seq<Action>)
    ensures SameRecord(b, Run(b, actions))
    ensures Run(b, actions).status == Pending ==> Run(b, actions) == b
    decreases |actions|
  {
    if actions != [] {
      match Step(b, actions[0])
      case Ok(next) =>
        PendingNeverReturns(next, actions[1..]);
      case Err(_) =>
        PendingNeverReturns(b, actions[1..]);
    }
  }

  /** Marking paid twice: the second request is refused, so the first one's result stands. */
  lemma PayTwiceRefused(b: Booking)
    requires Pay(b).Ok?
    ensures Pay(Pay(b).value) == Err(NotPayable)
    ensures Run(b, [MarkPaid, MarkPaid]) == Run(b, [MarkPaid])
  {
    assert Run(b, [MarkPaid, MarkPaid]) == Run(b.(status := Paid), [MarkPaid]);
    assert Run(b.(status := Paid), [MarkPaid]) == b.(status := Paid);
  }

  /** Cancelling twice: the second request is refused. */
  lemma CancelTwiceRefused(b: Booking)
    requires Cancel(b).Ok?
    ensures Cancel(Cancel(b).value) == Err(NotCancellable)
  {
  }

  /**
   * The admin status update does not refuse a repeat: confirming (or
   * rejecting) twice succeeds both times and ends where one request ends.
   */
  lemma UpdateStatusRepeatAccepted(b: Booking, requested: Option<string>)
    requires UpdateStatus(b, requested).Ok?
    ensures UpdateStatus(UpdateStatus(b, requested).value, requested) == UpdateStatus(b, requested)
  {
  }

  /**
   * A proof upload with an accepted name succeeds from every status,
   * including rejected, paid and cancelled.
   */
  lemma UploadFromAnyStatus(b: Booking, fileName: string, proofUrl: string)
    requires Upload.AllowedFile(fileName)
    ensures AttachProof(b, Some(fileName), proofUrl).Ok?
    ensures AttachProof(b, Some(fileName), proofUrl).value.status == PendingVerification
  {
  }
}
