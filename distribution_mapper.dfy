/** Conversions between distribution requests, distribution rows and distribution responses. */
module DistributionMapper {
  import opened Wrappers
  import opened Entities

  /** `toEntity`: copies the request's fields; the date defaults to `today` when absent. */
  function ToEntity(request: DistributionRequest, today: Date): (d: Distribution)
    ensures d.id.None? && d.createdAt.None?
  {
    Distribution(None, request.donationType, request.quantity,
                 request.distributionDate.GetOr(today), None, request.recipient)
  }

  /** `toResponse`: copies all six fields of the row. */
  function ToResponse(d: Distribution): DistributionResponse {
    DistributionResponse(d.id, d.donationType, d.quantity, d.distributionDate, d.recipient, d.createdAt)
  }

  /** The request a row could have come from, with its date spelled out. */
  function RequestOf(d: Distribution): DistributionRequest {
    DistributionRequest(d.donationType, d.quantity, Some(d.distributionDate), d.recipient)
  }

  /**
   * `toEntity` keeps every field of the request: reading the request back off the row
   * gives the original, with an absent date replaced by `today`.
   */
  lemma ToEntityKeepsRequest(request: DistributionRequest, today: Date)
    ensures RequestOf(ToEntity(request, today))
         == request.(distributionDate := Some(request.distributionDate.GetOr(today)))
    ensures request.distributionDate.Some? ==> RequestOf(ToEntity(request, today)) == request
    ensures request.distributionDate.None? ==> ToEntity(request, today).distributionDate == today
  {
  }

  /** An unsaved row is exactly what `toEntity` makes of the request read off it. */
  lemma ToEntityOfRequestOf(d: Distribution, today: Date)
    requires d.id.None? && d.createdAt.None?
    ensures ToEntity(RequestOf(d), today) == d
  {
  }

  /** `toResponse` loses nothing: distinct rows give distinct responses. */
  lemma ToResponseInjective(a: Distribution, b: Distribution)
    requires ToResponse(a) == ToResponse(b)
    ensures a == b
  {
  }

  /** The response to a freshly mapped request carries the request's type, quantity, recipient and date. */
  lemma ResponseOfRequest(request: DistributionRequest, today: Date)
    ensures var r := ToResponse(ToEntity(request, today));
      && r.donationType == request.donationType && r.quantity == request.quantity
      && r.recipient == request.recipient && r.distributionDate == request.distributionDate.GetOr(today)
      && r.id.None? && r.createdAt.None?
  {
  }
}
