/** The inventory report: one line per donation type in use, and the money in stock. */
module InventoryReportDto {
  import opened DonationTypes
  import opened Entities

  /** One type's line: what came in, what went out, and what is left (which may be negative). */
  datatype InventoryItem = InventoryItem(
    donationType: DonationType,
    totalDonated: Cents,
    totalDistributed: Cents,
    currentStock: Cents)

  class InventoryReport {
    var items: seq<InventoryItem>
    /** The monetary value of the stock. */
    var totalValue: Cents
    /** Never filled in by the report builder: stays zero. */
    var totalQuantity: Cents

    /** A new report has no items and zero totals. */
    constructor ()
      ensures items == [] && totalValue == 0 && totalQuantity == 0
    {
      items := [];
      totalValue := 0;
      totalQuantity := 0;
    }

    /** `addItem`: appends one item and keeps the earlier ones and the totals. */
    method AddItem(item: InventoryItem)
      modifies this
      ensures items == old(items) + [item]
      ensures totalValue == old(totalValue) && totalQuantity == old(totalQuantity)
    {
      items := items + [item];
    }

    /** `setTotalValue`: changes only the total value. */
    method SetTotalValue(value: Cents)
      modifies this
      ensures totalValue == value
      ensures items == old(items) && totalQuantity == old(totalQuantity)
    {
      totalValue := value;
    }
  }
}
