/** The donor report: per donor, what they gave of each type and the money they gave. */
module DonorReportDto {
  import opened DonationTypes
  import opened Entities

  /** One `[type, total]` entry of a donor's contribution. */
  datatype DonationByType = DonationByType(donationType: DonationType, quantity: Cents)

  class DonorContribution {
    var donorName: string
    var donations: seq<DonationByType>
    /** The money given. */
    var totalValue: Cents
    /** Never filled in by the report builder: stays zero. */
    var totalQuantity: Cents

    /** `new DonorContribution(name)`: that name, no donations, zero totals. */
    constructor (name: string)
      ensures donorName == name && donations == [] && totalValue == 0 && totalQuantity == 0
    {
      donorName := name;
      donations := [];
      totalValue := 0;
      totalQuantity := 0;
    }

    /** `addDonation`: appends one entry and keeps the earlier ones. */
    method AddDonation(donation: DonationByType)
      modifies this
      ensures donations == old(donations) + [donation]
      ensures donorName == old(donorName) && totalValue == old(totalValue) && totalQuantity == old(totalQuantity)
    {
      donations := donations + [donation];
    }

    /** `setTotalValue`: changes only the total value. */
    method SetTotalValue(value: Cents)
      modifies this
      ensures totalValue == value
      ensures donorName == old(donorName) && donations == old(donations) && totalQuantity == old(totalQuantity)
    {
      totalValue := value;
    }
  }

  class DonorReport {
    var contributions: seq<DonorContribution>
    var totalDonors: int

    /** The donor count always matches the number of contributions. */
    ghost predicate Valid()
      reads this
    {
      totalDonors == |contributions|
    }

    /** A new report has no contributions and counts no donors. */
    constructor ()
      ensures Valid() && contributions == [] && totalDonors == 0
    {
      contributions := [];
      totalDonors := 0;
    }

    /** `addContribution`: appends at the end and recounts the donors. */
    method AddContribution(contribution: DonorContribution)
      modifies this
      ensures contributions == old(contributions) + [contribution]
      ensures Valid()
    {
      contributions := contributions + [contribution];
      totalDonors := |contributions|;
    }
  }
}
