/**
 * The persisted records, the request and response shapes, and the service errors.
 * Quantities are integer cents (the columns are decimals of scale 2), dates are day
 * numbers and timestamps are abstract instants. An unset Java reference is `None`.
 */
module Entities {
  import opened Wrappers
  import opened DonationTypes

  type Cents = int
  type Date = int
  type Timestamp = int

  /** A donation row (`Donation`): `id` and `createdAt` are unset until it is saved. */
  datatype Donation = Donation(
    id: Option<nat>,
    donorName: string,
    donationType: DonationType,
    quantity: Cents,
    donationDate: Date,
    createdAt: Option<Timestamp>)

  /** A distribution row (`Distribution`): the recipient is an optional column. */
  datatype Distribution = Distribution(
    id: Option<nat>,
    donationType: DonationType,
    quantity: Cents,
    distributionDate: Date,
    createdAt: Option<Timestamp>,
    recipient: Option<string>)

  datatype DonationRequest = DonationRequest(
    donorName: string,
    donationType: DonationType,
    quantity: Cents,
    donationDate: Option<Date>)

  datatype DistributionRequest = DistributionRequest(
    donationType: DonationType,
    quantity: Cents,
    distributionDate: Option<Date>,
    recipient: Option<string>)

  datatype DonationResponse = DonationResponse(
    id: Option<nat>,
    donorName: string,
    donationType: DonationType,
    quantity: Cents,
    donationDate: Date,
    createdAt: Option<Timestamp>)

  datatype DistributionResponse = DistributionResponse(
    id: Option<nat>,
    donationType: DonationType,
    quantity: Cents,
    distributionDate: Date,
    recipient: Option<string>,
    createdAt: Option<Timestamp>)

  /** The answer to "is there enough of this type for that quantity?". */
  datatype InventoryCheckResponse = InventoryCheckResponse(
    donationType: DonationType,
    requestedQuantity: Cents,
    availableQuantity: Cents,
    sufficient: bool)

  /** What the services throw, one constructor per distinct exception. */
  datatype ServiceError =
    | DonationNotFound(donationId: nat)
    | DistributionNotFound(distributionId: nat)
    | InsufficientInventory

  /** The largest quantity with at most 10 integer digits and 2 fraction digits, in cents. */
  const MaxQuantity: Cents := 999_999_999_999

  /** The request layer's bound on a new record's quantity: at least 0.01, at most 10 integer digits. */
  predicate ValidQuantity(q: Cents) {
    1 <= q <= MaxQuantity
  }

  /** The request layer's checks on a donation: a donor name of 2 to 255 characters and a valid quantity. */
  predicate ValidDonationRequest(r: DonationRequest) {
    2 <= |r.donorName| <= 255 && ValidQuantity(r.quantity)
  }

  /** The request layer's checks on a distribution: a valid quantity, a recipient of at most 255 characters. */
  predicate ValidDistributionRequest(r: DistributionRequest) {
    ValidQuantity(r.quantity) && (r.recipient.Some? ==> |r.recipient.value| <= 255)
  }
}
