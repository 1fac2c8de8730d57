/** Conversions between donation requests, donation rows and donation responses. */
module DonorMapper {
  import opened Wrappers
  import opened Entities

  /** `toEntity`: copies the request's fields; the date defaults to `today` when absent. */
  function ToEntity(request: DonationRequest, today: Date): (d: Donation)
    ensures d.id.None? && d.createdAt.None?
  {
    Donation(None, request.donorName, request.donationType, request.quantity,
             request.donationDate.GetOr(today), None)
  }

  /** `toResponse`: copies all six fields of the row. */
  function ToResponse(d: Donation): DonationResponse {
    DonationResponse(d.id, d.donorName, d.donationType, d.quantity, d.donationDate, d.createdAt)
  }

  /** The request a row could have come from, with its date spelled out. */
  function RequestOf(d: Donation): DonationRequest {
    DonationRequest(d.donorName, d.donationType, d.quantity, Some(d.donationDate))
  }

  /**
   * `toEntity` keeps every field of the request: reading the request back off the row
   * gives the original, with an absent date replaced by `today`.
   */
  lemma ToEntityKeepsRequest(request: DonationRequest, today: Date)
    ensures RequestOf(ToEntity(request, today))
         == request.(donationDate := Some(request.donationDate.GetOr(today)))
    ensures request.donationDate.Some? ==> RequestOf(ToEntity(request, today)) == request
    ensures request.donationDate.None? ==> ToEntity(request, today).donationDate == today
  {
  }

  /** An unsaved row is exactly what `toEntity` makes of the request read off it. */
  lemma ToEntityOfRequestOf(d: Donation, today: Date)
    requires d.id.None? && d.createdAt.None?
    ensures ToEntity(RequestOf(d), today) == d
  {
  }

  /** `toResponse` loses nothing: distinct rows give distinct responses. */
  lemma ToResponseInjective(a: Donation, b: Donation)
    requires ToResponse(a) == ToResponse(b)
    ensures a == b
  {
  }

  /** The response to a freshly mapped request carries the request's donor, type, quantity and date. */
  lemma ResponseOfRequest(request: DonationRequest, today: Date)
    ensures var r := ToResponse(ToEntity(request, today));
      && r.donorName == request.donorName && r.donationType == request.donationType
      && r.quantity == request.quantity && r.donationDate == request.donationDate.GetOr(today)
      && r.id.None? && r.createdAt.None?
  {
  }
}
