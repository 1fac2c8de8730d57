/**
 * The report service: per-type totals read off the grouped queries into maps, the stock of
 * a type, the availability check, and the two report builders.
 */
module Reports {
  import opened Wrappers
  import opened DonationTypes
  import opened Entities
  import opened Ledger
  import opened InventoryReportDto
  import opened DonorReportDto
  import opened ReportSpec
  import DR = DonationRepository
  import XR = DistributionRepository

  /**
   * The state of the donor grouping after some rows: a map from each donor seen to a
   * contribution object of its own (the keys in first-seen order), each holding the donor's
   * entries and money subtotal over those rows.
   */
  ghost predicate Grouped(donorMap: map<string, DonorContribution>, order: seq<string>, rows: seq<KeyTypeTotal>)
    reads donorMap.Values
  {
    && order == DonorOrder(rows)
    && (forall k :: k in donorMap <==> k in order)
    && (forall k1, k2 | k1 in donorMap && k2 in donorMap && k1 != k2 :: donorMap[k1] != donorMap[k2])
    && (forall k | k in donorMap ::
          && donorMap[k].donorName == k
          && donorMap[k].donations == DonationsOf(rows, k)
          && donorMap[k].totalValue == MoneyOf(rows, k)
          && donorMap[k].totalQuantity == 0)
  }

  /** The contributions are, in order, one per donor of the rows, each with that donor's entries and money. */
  ghost predicate ContributionsMatch(contributions: seq<DonorContribution>, rows: seq<KeyTypeTotal>)
    reads set c | c in contributions
  {
    && |contributions| == |DonorOrder(rows)|
    && forall m :: 0 <= m < |contributions| ==>
         && contributions[m].donorName == DonorOrder(rows)[m]
         && contributions[m].donations == DonationsOf(rows, DonorOrder(rows)[m])
         && contributions[m].totalValue == MoneyOf(rows, DonorOrder(rows)[m])
         && contributions[m].totalQuantity == 0
  }

  /**
   * What the contributions say about the lines: one per donor, in ascending name order;
   * each lists every type the donor gave, once, with what the donor gave of it, and the
   * money the donor gave.
   */
  ghost predicate ContributionsDescribe(contributions: seq<DonorContribution>, ls: seq<Line>)
    reads set c | c in contributions
  {
    && |contributions| == |DistinctKeys(ls)|
    && forall m :: 0 <= m < |contributions| ==>
         && contributions[m].donorName == DistinctKeys(ls)[m]
         && EntryTypesDistinct(contributions[m].donations)
         && (forall e :: e in contributions[m].donations <==>
               HasKeyType(ls, contributions[m].donorName, e.donationType)
               && e.quantity == SumOfKeyType(ls, contributions[m].donorName, e.donationType))
         && contributions[m].totalValue == SumOfKeyType(ls, contributions[m].donorName, MONEY)
  }

  /** Listing the grouped contributions in donor order yields contributions that match the rows. */
  lemma ListedMatch(donorMap: map<string, DonorContribution>, order: seq<string>, rows: seq<KeyTypeTotal>,
                    contributions: seq<DonorContribution>)
    requires Grouped(donorMap, order, rows)
    requires |contributions| == |order|
    requires forall m :: 0 <= m < |order| ==> order[m] in donorMap && contributions[m] == donorMap[order[m]]
    ensures ContributionsMatch(contributions, rows)
  {
  }

  /** Grouping the `GROUP BY donor, type` rows by donor describes each donor's giving. */
  lemma MatchDescribes(contributions: seq<DonorContribution>, ds: seq<Donation>)
    requires ContributionsMatch(contributions, DR.GetTotalDonationsByDonor(ds))
    ensures ContributionsDescribe(contributions, DR.Lines(ds))
  {
    DonorGroupingSpec(DR.Lines(ds));
  }

  class ReportService {
    const donationRepository: DR.Repository
    const distributionRepository: XR.Repository

    constructor (donations: DR.Repository, distributions: XR.Repository)
      ensures donationRepository == donations && distributionRepository == distributions
    {
      donationRepository := donations;
      distributionRepository := distributions;
    }

    /** The stored donations. */
    function Donations(): seq<Donation>
      reads donationRepository
    {
      donationRepository.records
    }

    /** The stored distributions. */
    function Distributions(): seq<Distribution>
      reads distributionRepository
    {
      distributionRepository.records
    }

    /** `getDonationTypeBigDecimalMap`: puts each `[type, total]` row into a map, a later row replacing an earlier one. */
    static method GetDonationTypeMap(rows: seq<TypeTotal>) returns (m: map<DonationType, Cents>)
      ensures m == TypeMap(rows)
    {
      m := map[];
      for i := 0 to |rows|
        invariant m == TypeMap(rows[..i])
      {
        assert rows[..i + 1][..i] == rows[..i];
        m := m[rows[i].donationType := rows[i].total];
      }
      assert rows[..|rows|] == rows;
    }

    /** `getTotalDonatedByType`: a key for each donated type, holding what was donated of it. */
    method GetTotalDonatedByType() returns (m: map<DonationType, Cents>)
      ensures m.Keys == TypesIn(DR.Lines(Donations()))
      ensures forall t :: GetOrZero(m, t) == DR.DonatedOfType(Donations(), t)
    {
      m := GetDonationTypeMap(DR.GetTotalQuantityByType(donationRepository.records));
      forall t ensures GetOrZero(m, t) == DR.DonatedOfType(Donations(), t) {
        GroupByTypeLookup(DR.Lines(Donations()), t);
      }
      GroupByTypeLookup(DR.Lines(Donations()), MONEY);
    }

    /** `getTotalDistributedByType`: a key for each distributed type, holding what was distributed of it. */
    method GetTotalDistributedByType() returns (m: map<DonationType, Cents>)
      ensures m.Keys == TypesIn(XR.Lines(Distributions()))
      ensures forall t :: GetOrZero(m, t) == XR.DistributedOfType(Distributions(), t)
    {
      m := GetDonationTypeMap(XR.GetTotalQuantityByType(distributionRepository.records));
      forall t ensures GetOrZero(m, t) == XR.DistributedOfType(Distributions(), t) {
        GroupByTypeLookup(XR.Lines(Distributions()), t);
      }
      GroupByTypeLookup(XR.Lines(Distributions()), MONEY);
    }

    /** `getTotalDonatedForType`: the map entry, zero when absent. */
    method GetTotalDonatedForType(t: DonationType) returns (total: Cents)
      ensures total == DR.DonatedOfType(Donations(), t)
    {
      var m := GetTotalDonatedByType();
      total := GetOrZero(m, t);
    }

    /** `getTotalDistributedForType`: the per-type SUM query, with NULL read as zero. */
    function GetTotalDistributedForType(t: DonationType): (total: Cents)
      reads distributionRepository
      ensures total == XR.DistributedOfType(Distributions(), t)
    {
      XR.GetTotalQuantityForType(distributionRepository.records, t).GetOr(0)
    }

    /** `getInventoryByType`: donated minus distributed. */
    method GetInventoryByType(t: DonationType) returns (stock: Cents)
      ensures stock == Stock(Donations(), Distributions(), t)
    {
      var donated := GetTotalDonatedForType(t);
      var distributed := GetTotalDistributedForType(t);
      stock := donated - distributed;
    }

    /** `hasAvailableInventory`: the stock covers the requested quantity. */
    method HasAvailableInventory(t: DonationType, requested: Cents) returns (available: bool)
      ensures available <==> Stock(Donations(), Distributions(), t) >= requested
    {
      var stock := GetInventoryByType(t);
      available := stock >= requested;
    }

    /** `checkInventory`: the stock of `t` and whether it covers `requested`. */
    method CheckInventory(t: DonationType, requested: Cents) returns (r: InventoryCheckResponse)
      ensures r.donationType == t && r.requestedQuantity == requested
      ensures r.availableQuantity == Stock(Donations(), Distributions(), t)
      ensures r.sufficient <==> Stock(Donations(), Distributions(), t) >= requested
    {
      var available := GetInventoryByType(t);
      var sufficient := HasAvailableInventory(t, requested);
      r := InventoryCheckResponse(t, requested, available, sufficient);
    }

    /**
     * The loop of `generateInventoryReport`: adds, for each type of either map, visited in
     * no particular order, its donated and distributed totals and their difference, and
     * sums the money in stock.
     */
    static method AddItems(report: InventoryReport, donatedMap: map<DonationType, Cents>,
                           distributedMap: map<DonationType, Cents>, ghost ds: seq<Donation>,
                           ghost xs: seq<Distribution>)
      returns (totalMoneyInStock: Cents)
      requires report.items == [] && report.totalQuantity == 0
      requires forall t :: GetOrZero(donatedMap, t) == DR.DonatedOfType(ds, t)
      requires forall t :: GetOrZero(distributedMap, t) == XR.DistributedOfType(xs, t)
      modifies report
      ensures report.totalQuantity == 0
      ensures ItemTypesDistinct(report.items)
      ensures ItemsCover(report.items, donatedMap.Keys + distributedMap.Keys)
      ensures ItemsFaithful(ds, xs, report.items)
      ensures totalMoneyInStock == if MONEY in donatedMap.Keys + distributedMap.Keys then Stock(ds, xs, MONEY) else 0
    {
      var allTypes := donatedMap.Keys + distributedMap.Keys;
      totalMoneyInStock := 0;
      var remaining, visited := allTypes, {};
      while remaining != {}
        invariant remaining + visited == allTypes && remaining !! visited
        invariant report.totalQuantity == 0
        invariant ItemTypesDistinct(report.items)
        invariant ItemsCover(report.items, visited)
        invariant ItemsFaithful(ds, xs, report.items)
        invariant totalMoneyInStock == if MONEY in visited then Stock(ds, xs, MONEY) else 0
        decreases remaining
      {
        var t :| t in remaining;
        var donated := GetOrZero(donatedMap, t);
        var distributed := GetOrZero(distributedMap, t);
        var currentStock := donated - distributed;
        var item := InventoryItem(t, donated, distributed, currentStock);
        assert item == ItemFor(ds, xs, t);
        AddItemKeepsReport(ds, xs, report.items, visited, t);
        report.AddItem(item);
        if t == MONEY {
          totalMoneyInStock := totalMoneyInStock + currentStock;
        }
        remaining, visited := remaining - {t}, visited + {t};
      }
    }

    /**
     * `generateInventoryReport`: one item for each type that was donated or distributed and
     * no other, each carrying its donated and distributed totals and their difference; the
     * total value is the money in stock. The set of types is visited in no particular order.
     */
    method GenerateInventoryReport() returns (report: InventoryReport)
      ensures fresh(report)
      ensures ItemTypesDistinct(report.items)
      ensures ItemsCover(report.items, TypesUsed(Donations(), Distributions()))
      ensures ItemsFaithful(Donations(), Distributions(), report.items)
      ensures report.totalValue == Stock(Donations(), Distributions(), MONEY)
      ensures report.totalQuantity == 0
    {
      report := new InventoryReport();
      var donatedMap := GetTotalDonatedByType();
      var distributedMap := GetTotalDistributedByType();
      assert donatedMap.Keys + distributedMap.Keys == TypesUsed(Donations(), Distributions());
      var totalMoneyInStock := AddItems(report, donatedMap, distributedMap, Donations(), Distributions());
      if MONEY !in donatedMap.Keys + distributedMap.Keys {
        UnusedTypeHasNoStock(Donations(), Distributions(), MONEY);
      }
      report.SetTotalValue(totalMoneyInStock);
    }

    /**
     * One row of `generateDonorReport`'s loop: gets or creates the donor's contribution
     * (`computeIfAbsent`), appends the row's entry, and adds a MONEY row to the total value.
     */
    static method AddRow(donorMap: map<string, DonorContribution>, order: seq<string>,
                         ghost rows: seq<KeyTypeTotal>, row: KeyTypeTotal)
      returns (donorMap': map<string, DonorContribution>, order': seq<string>)
      requires Grouped(donorMap, order, rows)
      modifies donorMap.Values
      ensures Grouped(donorMap', order', rows + [row])
      ensures forall k | k in donorMap' :: if k in donorMap then donorMap'[k] == donorMap[k] else fresh(donorMap'[k])
    {
      var donorName, donationType, quantity := row.key, row.donationType, row.total;
      GroupStep(rows, row);
      var contribution: DonorContribution;
      if donorName in donorMap {
        contribution := donorMap[donorName];
        donorMap', order' := donorMap, order;
      } else {
        OtherDonorRows(rows, donorName);
        contribution := new DonorContribution(donorName);
        donorMap' := donorMap[donorName := contribution];
        order' := order + [donorName];
      }
      assert contribution.donations == DonationsOf(rows, donorName);
      assert contribution.totalValue == MoneyOf(rows, donorName);
      contribution.AddDonation(DonationByType(donationType, quantity));
      if donationType == MONEY {
        contribution.SetTotalValue(contribution.totalValue + quantity);
      }
      forall k | k in donorMap' && k != donorName
        ensures donorMap'[k] == donorMap[k] && donorMap[k] != contribution
        ensures donorMap[k].donations == old(donorMap[k].donations)
        ensures donorMap[k].totalValue == old(donorMap[k].totalValue)
        ensures donorMap[k].donorName == old(donorMap[k].donorName)
        ensures donorMap[k].totalQuantity == old(donorMap[k].totalQuantity)
      {
      }
      assert contribution.donations == DonationsOf(rows + [row], donorName);
      assert contribution.totalValue == MoneyOf(rows + [row], donorName);
    }

    /**
     * The first pass of `generateDonorReport`: one fresh contribution per donor of the rows,
     * holding that donor's entries in row order and its MONEY total, and the donors in
     * first-seen order.
     */
    static method GroupByDonor(donorData: seq<KeyTypeTotal>)
      returns (donorMap: map<string, DonorContribution>, order: seq<string>)
      ensures Grouped(donorMap, order, donorData)
      ensures forall k | k in donorMap :: fresh(donorMap[k])
    {
      donorMap, order := map[], [];
      for i := 0 to |donorData|
        invariant Grouped(donorMap, order, donorData[..i])
        invariant forall k | k in donorMap :: fresh(donorMap[k])
      {
        assert donorData[..i + 1] == donorData[..i] + [donorData[i]];
        donorMap, order := AddRow(donorMap, order, donorData[..i], donorData[i]);
      }
      assert donorData[..|donorData|] == donorData;
    }

    /** The second pass of `generateDonorReport`: adds the donors' contributions in `order`. */
    static method AddInOrder(report: DonorReport, donorMap: map<string, DonorContribution>, order: seq<string>)
      requires report.contributions == [] && report.totalDonors == 0
      requires forall m :: 0 <= m < |order| ==> order[m] in donorMap
      modifies report
      ensures report.Valid() && |report.contributions| == |order|
      ensures forall m :: 0 <= m < |order| ==> report.contributions[m] == donorMap[order[m]]
    {
      for j := 0 to |order|
        invariant report.Valid() && |report.contributions| == j
        invariant forall m :: 0 <= m < j ==> report.contributions[m] == donorMap[order[m]]
      {
        report.AddContribution(donorMap[order[j]]);
      }
    }

    /**
     * `generateDonorReport`: walks the `[donor, type, total]` rows, creating a contribution
     * the first time a donor appears, appending each row's entry to its donor's contribution
     * and adding MONEY rows to the donor's total value; then adds the contributions in
     * first-seen order.
     */
    method GenerateDonorReport() returns (report: DonorReport)
      ensures fresh(report)
      ensures report.Valid()
      ensures ContributionsMatch(report.contributions, DR.GetTotalDonationsByDonor(Donations()))
      ensures ContributionsDescribe(report.contributions, DR.Lines(Donations()))
    {
      report := new DonorReport();
      var donorData := DR.GetTotalDonationsByDonor(donationRepository.records);
      var donorMap, order := GroupByDonor(donorData);
      AddInOrder(report, donorMap, order);
      ListedMatch(donorMap, order, donorData, report.contributions);
      MatchDescribes(report.contributions, Donations());
    }
  }
}
