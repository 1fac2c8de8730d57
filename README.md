# Shelter inventory ledger — a Dafny model

This project models the inventory ledger of a shelter's donation-management service.
Donations and distributions are two record tables. The stock of each donation type is
what was donated minus what was distributed. A new distribution is recorded only when
the stock of its type covers its quantity. Two reports aggregate the tables:
- the inventory report gives each type in use, with its stock, and the money in stock;
- the donor report gives each donor, with what they gave of each type and their money total.

Representation:
- Quantities are integer cents; the columns are decimals of scale 2.
- Dates are integer day numbers, and creation timestamps are abstract integers.
- Record ids are natural numbers.
- An unset Java reference is `None`.
- A thrown exception is the `Failure` arm of a `Result`, with one `ServiceError`
  constructor per exception the services throw.

Modules and files:
- `wrappers.dfy` (`Option`, `Result`).
- `text.dfy`: ASCII case-insensitive equality and substring search, and the string order used by `ORDER BY`.
- `donation_type.dfy`: the enum and `fromString`.
- `entities.dfy`: records, requests, responses and errors.
- `donor_mapper.dfy` and `distribution_mapper.dfy`.
- `seqs.dfy`: filtering, and the descending sort used for `ORDER BY date DESC`.
- `ledger.dfy`: the `SUM … GROUP BY` queries over a common projection of both tables.
- `donation_repository.dfy` and `distribution_repository.dfy`:
  - a `Repository` class per table, for `save`, `existsById`, `findById`, `deleteById`, `findAll` and `count`;
  - the declared queries as functions over the stored rows.
- `inventory_report_dto.dfy` and `donor_report_dto.dfy`: the report objects, as classes.
- `report_spec.dfy`: what stock, an inventory line and the donor grouping mean.
- `report_service.dfy`, `distribution_service.dfy` and `donation_service.dfy`: the services.

The report builders are methods with loops. They fill the report objects through the objects'
own methods and are proved against the functions of `report_spec.dfy`. The record
services change the repository objects they hold. Their read-only operations are
functions of the stored rows.

## Model

| member | source | states |
|---|---|---|
| DonationTypes.AllTypesComplete | src/main/java/org/entity/DonationType.java:3-13 | there are exactly ten types, each listed once, in declaration order |
| DonationTypes.FirstMatch | src/main/java/org/entity/DonationType.java:26-31 | the loop returns the first type in declaration order whose name or label matches, and none when no type matches |
| DonationTypes.MatchUnique | src/main/java/org/entity/DonationType.java:27-28 | no string matches two different types, so which match comes first does not matter |
| DonationTypes.FromStringSpec | src/main/java/org/entity/DonationType.java:25-33 | `fromString` succeeds exactly when some type's name or label equals the string ignoring case, and then returns that type; otherwise it fails (the IllegalArgumentException) |
| DonationTypes.FromStringName | src/main/java/org/entity/DonationType.java:25-29 | `fromString(t.name()) == t` for every type |
| DonationTypes.FromStringDisplayName | src/main/java/org/entity/DonationType.java:21-29 | `fromString(t.getDisplayName()) == t` for every type |
| DonationTypes.FromStringIgnoresCase | src/main/java/org/entity/DonationType.java:27-28 | strings equal up to case parse the same way |
| DonorMapper.ToEntity | src/main/java/org/mapper/DonorMapper.java:15-26 | the new row has no id and no creation time yet |
| DonorMapper.ToEntityKeepsRequest | src/main/java/org/mapper/DonorMapper.java:15-26 | donor, type and quantity are copied unchanged; the date is the request's when present and `today` otherwise |
| DonorMapper.ToEntityOfRequestOf | src/main/java/org/mapper/DonorMapper.java:15-26 | every unsaved row is what `toEntity` makes of the request read off it (no information is invented) |
| DonorMapper.ToResponseInjective | src/main/java/org/mapper/DonorMapper.java:29-38 | `toResponse` copies all six fields: different rows give different responses |
| DonorMapper.ResponseOfRequest | src/main/java/org/mapper/DonorMapper.java:15-38 | `toResponse(toEntity(r))` keeps the donor, type and quantity of `r`, with the defaulted date |
| DistributionMapper.ToEntity | src/main/java/org/mapper/DistributionMapper.java:13-25 | the new row has no id and no creation time yet |
| DistributionMapper.ToEntityKeepsRequest | src/main/java/org/mapper/DistributionMapper.java:13-25 | type, quantity and recipient are copied unchanged; the date is the request's when present and `today` otherwise |
| DistributionMapper.ToEntityOfRequestOf | src/main/java/org/mapper/DistributionMapper.java:13-25 | every unsaved row is what `toEntity` makes of the request read off it |
| DistributionMapper.ToResponseInjective | src/main/java/org/mapper/DistributionMapper.java:28-37 | `toResponse` copies all six fields: different rows give different responses |
| DistributionMapper.ResponseOfRequest | src/main/java/org/mapper/DistributionMapper.java:13-37 | `toResponse(toEntity(r))` keeps the type, quantity and recipient of `r`, with the defaulted date |
| Ledger.TypeTotalsMap | src/main/java/org/services/ReportService.java:153-163 | putting the grouped rows into a map gives exactly the types that occur as keys, each mapped to its sum |
| Ledger.TypeTotalsRows | src/main/java/org/repository/DonationRepository.java:37-40 | `GROUP BY donationType` has a row for a type exactly when the type occurs, carrying that type's sum |
| Ledger.GroupByTypeLookup | src/main/java/org/services/ReportService.java:171-180 | the grouped-sum map looked up with default zero equals the single-type SUM query with NULL read as zero |
| Ledger.TotalForType | src/main/java/org/repository/DistributionRepository.java:48-49 | `SELECT SUM … WHERE type = t` is NULL exactly when no row has type t, and otherwise the sum |
| Ledger.TotalForKey | src/main/java/org/repository/DonationRepository.java:53-54 | `SELECT SUM … WHERE key = k` is NULL exactly when no row has key k, and otherwise the sum |
| Ledger.DistinctKeys | src/main/java/org/repository/DonationRepository.java:57-58 | `SELECT DISTINCT … ORDER BY` holds each non-NULL key once, in strictly ascending order |
| Ledger.KeyTypeTotalsDistinct | src/main/java/org/repository/DonationRepository.java:46-49 | within one key, the grouped rows carry each type at most once |
| Ledger.TypeTotalsDistinct | src/main/java/org/repository/DonationRepository.java:37-40 | `GROUP BY donationType` yields at most one row per type |
| Ledger.KeyBlocksDistinct | src/main/java/org/repository/DonationRepository.java:46-50 | `GROUP BY key, type` yields at most one row per (key, type) pair |
| Ledger.KeyBlocksOrdered | src/main/java/org/repository/DonationRepository.java:49 | the grouped rows come in ascending key order |
| Ledger.GroupByKeyAndTypeSpec | src/main/java/org/repository/DistributionRepository.java:52-57 | `GROUP BY key, type ORDER BY key` has a row exactly for each (key, type) pair that occurs with a non-NULL key, and no pair twice, carrying that pair's sum, in ascending key order |
| Seqs.Filter | src/main/java/org/repository/DonationRepository.java:18-30 | a derived `findBy…` query keeps exactly the rows that satisfy its condition, and no more rows than there are |
| Seqs.FilterMultiset | src/main/java/org/repository/DonationRepository.java:18-30 | a derived query keeps every satisfying row as often as it is stored and drops the others |
| Seqs.FilterRemovesOne | src/main/java/org/services/DonationService.java:167 | deleting by a condition only one row fails removes that row and keeps the others in order |
| Seqs.SortDescending | src/main/java/org/repository/DonationRepository.java:64 | `ORDER BY … DESC` returns a permutation of its input in descending order |
| Text.UniqueSorted | src/main/java/org/repository/DonationRepository.java:57 | `DISTINCT … ORDER BY name` holds exactly the given names, each once, ascending |
| DonationRepository.FindByDonorName | src/main/java/org/repository/DonationRepository.java:18 | exactly the donations of that donor, each as often as stored |
| DonationRepository.FindByDonationType | src/main/java/org/repository/DonationRepository.java:20 | exactly the donations of that type |
| DonationRepository.FindByDonorNameContainingIgnoreCase | src/main/java/org/repository/DonationRepository.java:22 | exactly the donations whose donor name contains the term, ignoring ASCII case |
| DonationRepository.FindByDonationDateBetween | src/main/java/org/repository/DonationRepository.java:24 | exactly the donations dated from start to end, both inclusive |
| DonationRepository.FindByDonationTypeAndDonationDateBetween | src/main/java/org/repository/DonationRepository.java:26-30 | exactly the donations of that type dated from start to end, both inclusive |
| DonationRepository.GetTotalQuantityByType | src/main/java/org/repository/DonationRepository.java:37-40 | a row for exactly the donated types, no type twice, each carrying the sum of that type's donations |
| DonationRepository.DonorGroups | src/main/java/org/repository/DonationRepository.java:46-50 | one `[donor, type, total]` row for each donor and type some donation has, with that donor's sum of that type, no (donor, type) pair twice, ordered by donor |
| DonationRepository.GetTotalQuantityByDonor | src/main/java/org/repository/DonationRepository.java:53-54 | the sum of the donor's donations, and NULL exactly when the donor has none |
| DonationRepository.FindAllUniqueDonorNames | src/main/java/org/repository/DonationRepository.java:57-58 | every donor name once, strictly ascending, and no other name |
| DonationRepository.CountByDonationType | src/main/java/org/repository/DonationRepository.java:61 | the number of stored donations of that type |
| DonationRepository.FindRecentDonations | src/main/java/org/repository/DonationRepository.java:64-65 | the donations dated on or after `sinceDate`, each as often as stored, newest first |
| DonationRepository.RecentMembers | src/main/java/org/repository/DonationRepository.java:64-65 | a donation is among the recent ones exactly when it is stored and dated on or after `sinceDate`; dates never increase along the result |
| DonationRepository.Lookup | src/main/java/org/repository/DonationRepository.java:16 | finds a stored row with the id, and finds none exactly when no row has it |
| DonationRepository.DeleteRemovesOne | src/main/java/org/repository/DonationRepository.java:16 | with unique ids, deleting an id that a row carries removes exactly that row and keeps the others in order |
| DonationRepository.Repository.Save | src/main/java/org/repository/DonationRepository.java:16 | a new row gets the next identity value and its creation time and is appended; ids stay unique |
| DonationRepository.Repository.ExistsById | src/main/java/org/repository/DonationRepository.java:16 | true exactly when some stored row has the id |
| DonationRepository.Repository.FindById | src/main/java/org/repository/DonationRepository.java:16 | absent exactly when no row has the id, otherwise a stored row with that id |
| DonationRepository.Repository.DeleteById | src/main/java/org/repository/DonationRepository.java:16 | removes exactly the rows carrying the id, keeping the order of the rest and the table invariant |
| DistributionRepository.FindByDonationType | src/main/java/org/repository/DistributionRepository.java:18 | exactly the distributions of that type |
| DistributionRepository.FindByDistributionDateBetween | src/main/java/org/repository/DistributionRepository.java:20 | exactly the distributions dated from start to end, both inclusive |
| DistributionRepository.FindByDonationTypeAndDistributionDateBetween | src/main/java/org/repository/DistributionRepository.java:23-27 | exactly the distributions of that type dated from start to end, both inclusive |
| DistributionRepository.FindByRecipient | src/main/java/org/repository/DistributionRepository.java:30 | exactly the distributions to that recipient; rows without a recipient never match |
| DistributionRepository.FindByRecipientContainingIgnoreCase | src/main/java/org/repository/DistributionRepository.java:33 | exactly the distributions whose recipient contains the term, ignoring ASCII case; a NULL recipient never matches |
| DistributionRepository.GetTotalQuantityByType | src/main/java/org/repository/DistributionRepository.java:42-45 | a row for exactly the distributed types, no type twice, each carrying the sum of that type's distributions |
| DistributionRepository.GetTotalQuantityForType | src/main/java/org/repository/DistributionRepository.java:48-49 | the sum for that type, and NULL exactly when no distribution has it |
| DistributionRepository.RecipientGroups | src/main/java/org/repository/DistributionRepository.java:52-57 | one `[recipient, type, total]` row for each non-NULL recipient and type that occur together, with their sum, no (recipient, type) pair twice, ordered by recipient |
| DistributionRepository.CountByDonationType | src/main/java/org/repository/DistributionRepository.java:60 | the number of stored distributions of that type |
| DistributionRepository.FindRecentDistributions | src/main/java/org/repository/DistributionRepository.java:63-64 | the distributions dated on or after `sinceDate`, each as often as stored, newest first |
| DistributionRepository.RecentMembers | src/main/java/org/repository/DistributionRepository.java:63-64 | a distribution is among the recent ones exactly when it is stored and dated on or after `sinceDate`; dates never increase along the result |
| DistributionRepository.FindAllUniqueRecipients | src/main/java/org/repository/DistributionRepository.java:67-68 | every non-NULL recipient once, strictly ascending, and nothing else |
| DistributionRepository.DeleteRemovesOne | src/main/java/org/repository/DistributionRepository.java:16 | with unique ids, deleting an id that a row carries removes exactly that row and keeps the others in order |
| DistributionRepository.Repository.Save | src/main/java/org/repository/DistributionRepository.java:16 | a new row gets the next identity value and its creation time and is appended; ids stay unique |
| DistributionRepository.Repository.ExistsById | src/main/java/org/repository/DistributionRepository.java:16 | true exactly when some stored row has the id |
| DistributionRepository.Repository.FindById | src/main/java/org/repository/DistributionRepository.java:16 | absent exactly when no row has the id, otherwise a stored row with that id |
| DistributionRepository.Repository.DeleteById | src/main/java/org/repository/DistributionRepository.java:16 | removes exactly the rows carrying the id, keeping the order of the rest and the table invariant |
| InventoryReportDto.InventoryReport.constructor | src/main/java/org/dto/InventoryReportDTO.java:16-20 | a new report has no items and zero totals |
| InventoryReportDto.InventoryReport.AddItem | src/main/java/org/dto/InventoryReportDTO.java:111-113 | appends the item, keeping the earlier items and both totals |
| InventoryReportDto.InventoryReport.SetTotalValue | src/main/java/org/dto/InventoryReportDTO.java:99-101 | changes the total value and nothing else |
| DonorReportDto.DonorContribution.constructor | src/main/java/org/dto/DonorReportDTO.java:26-37 | a new contribution has the donor's name, no entries and zero totals |
| DonorReportDto.DonorContribution.AddDonation | src/main/java/org/dto/DonorReportDTO.java:72-74 | appends one entry, keeping the earlier entries, the name and the totals |
| DonorReportDto.DonorContribution.SetTotalValue | src/main/java/org/dto/DonorReportDTO.java:68-70 | changes the total value and nothing else |
| DonorReportDto.DonorReport.constructor | src/main/java/org/dto/DonorReportDTO.java:15-18 | a new report has no contributions and counts no donors |
| DonorReportDto.DonorReport.AddContribution | src/main/java/org/dto/DonorReportDTO.java:144-147 | appends the contribution and keeps the donor count equal to the number of contributions |
| ReportSpec.AddItemKeepsReport | src/main/java/org/services/ReportService.java:52-65 | adding the line of a type not yet visited keeps the items one per type, covering exactly the visited types, each the true line of its type |
| ReportSpec.UnusedTypeHasNoStock | src/main/java/org/services/ReportService.java:53-54 | a type missing from both maps counts as zero on both sides |
| ReportSpec.EmptyLedger | src/main/java/org/services/ReportService.java:36-50 | with nothing recorded no type is in use and every stock is zero |
| ReportSpec.EmptyReport | src/main/java/org/services/ReportService.java:36-50 | with nothing recorded an inventory report has no items |
| ReportSpec.NegativeStockReported | src/main/java/org/services/ReportService.java:55 | stock is donated minus distributed and is not clamped: 100.00 in and 150.00 out reports -50.00 |
| ReportSpec.StockAfterDistribution | src/main/java/org/services/DistributionService.java:53 | a saved distribution lowers its type's stock by its quantity and leaves other types alone |
| ReportSpec.StockAfterDonation | src/main/java/org/services/DonationService.java:41 | a saved donation raises its type's stock by its quantity and leaves other types alone |
| ReportSpec.DonorOrder | src/main/java/org/services/ReportService.java:90-101 | the donors of the rows, each once, in first-seen order (the `LinkedHashMap` key order) |
| ReportSpec.DonationsOf | src/main/java/org/services/ReportService.java:103-106 | a donor's entries are exactly the `[type, total]` of that donor's rows |
| ReportSpec.GroupStep | src/main/java/org/services/ReportService.java:92-113 | one more row adds its donor to the order if new, appends its entry to that donor only, and adds to that donor's money only if the row is MONEY |
| ReportSpec.MoneyOfBlock | src/main/java/org/services/ReportService.java:109-113 | a donor's MONEY subtotal over their own rows is what they gave in money |
| ReportSpec.DonorGroupingSpec | src/main/java/org/services/ReportService.java:83-122 | grouping the donor rows gives every donor once in ascending name order; each donor's entries are exactly the types they gave, one per type, with what they gave; the MONEY subtotal is the money they gave, zero when none |
| Reports.ReportService.GetDonationTypeMap | src/main/java/org/services/ReportService.java:153-163 | the loop builds the map of the rows, a later row for a type replacing an earlier one |
| Reports.ReportService.GetTotalDonatedByType | src/main/java/org/services/ReportService.java:149-151 | the keys are the donated types and each lookup with default zero is what was donated of the type |
| Reports.ReportService.GetTotalDistributedByType | src/main/java/org/services/ReportService.java:166-168 | the keys are the distributed types and each lookup with default zero is what was distributed of the type |
| Reports.ReportService.GetTotalDonatedForType | src/main/java/org/services/ReportService.java:171-174 | what was donated of the type, zero when nothing |
| Reports.ReportService.GetTotalDistributedForType | src/main/java/org/services/ReportService.java:177-180 | what was distributed of the type, with NULL read as zero |
| Reports.ReportService.GetInventoryByType | src/main/java/org/services/ReportService.java:129-133 | the stock of the type: donated minus distributed |
| Reports.ReportService.HasAvailableInventory | src/main/java/org/services/ReportService.java:141-144 | true exactly when the stock covers the requested quantity |
| Reports.ReportService.CheckInventory | src/main/java/org/services/DistributionService.java:44 | echoes type and quantity, reports the stock as available, and is sufficient exactly when the stock covers the quantity |
| Reports.ReportService.AddItems | src/main/java/org/services/ReportService.java:52-71 | visits each type of either map once: one item per type, each with its donated and distributed totals and their difference, and the money in stock summed |
| Reports.ReportService.GenerateInventoryReport | src/main/java/org/services/ReportService.java:35-76 | exactly one item per type donated or distributed, each the true inventory line of its type; total value is the money in stock; total quantity stays zero |
| Reports.ReportService.AddRow | src/main/java/org/services/ReportService.java:93-113 | one row: the donor's contribution is found or created fresh, gets the row's entry, and a MONEY row adds to its total value; other donors' contributions are untouched |
| Reports.ReportService.GroupByDonor | src/main/java/org/services/ReportService.java:90-114 | after all rows, a fresh contribution per donor in first-seen order, holding that donor's entries in row order and their money subtotal |
| Reports.ReportService.AddInOrder | src/main/java/org/services/ReportService.java:116-119 | the contributions are added in the map's key order and the donor count follows |
| Reports.ListedMatch | src/main/java/org/services/ReportService.java:116-119 | the contributions added in key order are, position by position, the donors of the rows with their entries and money |
| Reports.MatchDescribes | src/main/java/org/services/ReportService.java:83-122 | contributions built from the grouped rows describe the donations: one per donor, ascending, with each type they gave once and their money |
| Reports.ReportService.GenerateDonorReport | src/main/java/org/services/ReportService.java:83-122 | one contribution per donor in ascending name order; its entries are the types the donor gave, once each, with the donor's sum; its total value is the donor's money; donor count = number of contributions |
| DistributionServices.ResponsesMultiset | src/main/java/org/services/DistributionService.java:89-94 | mapping the rows to responses keeps multiplicities: each row's response occurs as often as the row |
| DistributionServices.ResponsesMembership | src/main/java/org/services/DistributionService.java:89-94 | a response is listed exactly when it is the response for one of the rows |
| DistributionServices.DistributionService.RecordDistribution | src/main/java/org/services/DistributionService.java:38-57 | when the stock of the type is below the quantity: "insufficient", nothing saved; otherwise exactly the mapped row is saved under the next identity value, the counter advances, and its response is returned, and the type's stock drops by the quantity and stays non-negative |
| DistributionServices.DistributionService.GetAllDistributions | src/main/java/org/services/DistributionService.java:64-69 | the responses of all rows, in storage order, same length |
| DistributionServices.DistributionService.GetDistributionById | src/main/java/org/services/DistributionService.java:77-81 | "not found" exactly when no row has the id; otherwise the response of the row with that id |
| DistributionServices.DistributionService.GetDistributionsByType | src/main/java/org/services/DistributionService.java:89-94 | the responses of exactly the distributions of that type; each matching row gives one response, as often as it is stored |
| DistributionServices.DistributionService.GetDistributionsByDateRange | src/main/java/org/services/DistributionService.java:103-108 | the responses of exactly the distributions dated in the range, both ends inclusive; each matching row gives one response, as often as it is stored |
| DistributionServices.DistributionService.GetDistributionsByRecipient | src/main/java/org/services/DistributionService.java:116-121 | the responses of exactly the distributions to that recipient; each matching row gives one response, as often as it is stored |
| DistributionServices.DistributionService.SearchDistributionsByRecipient | src/main/java/org/services/DistributionService.java:129-134 | the responses of exactly the distributions whose recipient contains the term, ignoring case; each matching row gives one response, as often as it is stored |
| DistributionServices.DistributionService.GetAllRecipients | src/main/java/org/services/DistributionService.java:141-143 | every recipient once, ascending |
| DistributionServices.DistributionService.GetTotalByType | src/main/java/org/services/DistributionService.java:151-154 | what was distributed of the type, zero when nothing (NULL sum) |
| DistributionServices.DistributionService.GetRecentDistributions | src/main/java/org/services/DistributionService.java:162-168 | the responses of exactly the distributions dated on or after `today - days`, one per matching row as often as it is stored, newest first |
| DistributionServices.DistributionService.DeleteDistribution | src/main/java/org/services/DistributionService.java:174-179 | "not found" and nothing deleted when no row has the id; otherwise exactly that row is removed and the rest keep their order; the identity counter is unchanged either way |
| DistributionServices.DistributionService.GetTotalDistributionCount | src/main/java/org/services/DistributionService.java:186-188 | the number of stored distributions |
| DonationServices.ResponsesMultiset | src/main/java/org/services/DonationService.java:91-96 | mapping the rows to responses keeps multiplicities: each row's response occurs as often as the row |
| DonationServices.ResponsesMembership | src/main/java/org/services/DonationService.java:91-96 | a response is listed exactly when it is the response for one of the rows |
| DonationServices.DonationService.RegisterDonation | src/main/java/org/services/DonationService.java:36-45 | always saves exactly the mapped row under the next identity value, advances the counter, and returns its response; no quantity check; what was donated of its type grows by its quantity, other types unchanged |
| DonationServices.DonationService.GetAllDonations | src/main/java/org/services/DonationService.java:52-58 | the responses of all rows, in storage order, same length |
| DonationServices.DonationService.GetDonationById | src/main/java/org/services/DonationService.java:66-70 | "not found" exactly when no row has the id; otherwise the response of the row with that id |
| DonationServices.DonationService.GetDonationsByDonor | src/main/java/org/services/DonationService.java:78-83 | the responses of exactly that donor's donations; each matching row gives one response, as often as it is stored |
| DonationServices.DonationService.GetDonationsByType | src/main/java/org/services/DonationService.java:91-96 | the responses of exactly the donations of that type; each matching row gives one response, as often as it is stored |
| DonationServices.DonationService.GetDonationsByDateRange | src/main/java/org/services/DonationService.java:105-110 | the responses of exactly the donations dated in the range, both ends inclusive; each matching row gives one response, as often as it is stored |
| DonationServices.DonationService.SearchDonationsByDonor | src/main/java/org/services/DonationService.java:118-123 | the responses of exactly the donations whose donor name contains the term, ignoring case; each matching row gives one response, as often as it is stored |
| DonationServices.DonationService.GetAllDonorNames | src/main/java/org/services/DonationService.java:130-132 | every donor name once, ascending |
| DonationServices.DonationService.GetTotalByDonor | src/main/java/org/services/DonationService.java:140-143 | the donor's total, zero when the donor has no donations (NULL sum) |
| DonationServices.DonationService.GetRecentDonations | src/main/java/org/services/DonationService.java:151-157 | the responses of exactly the donations dated on or after `today - days`, one per matching row as often as it is stored, newest first |
| DonationServices.DonationService.DeleteDonation | src/main/java/org/services/DonationService.java:163-168 | "not found" and nothing deleted when no row has the id; otherwise exactly that row is removed and the rest keep their order; the identity counter is unchanged either way |
| DonationServices.DonationService.GetTotalDonationCount | src/main/java/org/services/DonationService.java:175-177 | the number of stored donations |

## Left out

- `checkInventory` is called by `DistributionService` but is not defined in `ReportService.java`. It is modelled as `Reports.ReportService.CheckInventory`:
  - `availableQuantity` is `getInventoryByType`;
  - `sufficient` is `hasAvailableInventory`.
- The "insufficient inventory" exception carries a fixed message with no values, so `ServiceError.InsufficientInventory` has no payload.
- Case-insensitive matching (`equalsIgnoreCase`, `…ContainingIgnoreCase`) folds ASCII letters only; the database collation and Unicode case folding are not modelled.
- `ORDER BY` on strings is modelled as code-point lexicographic order, not a database collation.
- Row order that SQL leaves unspecified is fixed by the model:
  - `GROUP BY` rows come in `DonationType` declaration order;
  - rows of equal date in `ORDER BY date DESC` come in an order the model picks.

  The contracts claim only what SQL promises.
- The `HashSet` iteration order in `generateInventoryReport` is arbitrary: the model picks types with `:|`. The contract does not depend on the order.
- `LocalDate.now()` and the `@PrePersist` timestamp are parameters (`today`, `now`).
- The identity generator is a counter in the repository object.
- JPA `save` of an entity that already has an id (a merge) is not modelled: `Save` requires a new row, which is all the services pass it.
- Ids are natural numbers; negative and null `Long` ids are not modelled. Null arguments in general are not modelled, except the nullable columns (`recipient`, dates in requests).
- Repository.Save (both tables) accepts any quantity. The `quantity` column is `precision = 10, scale = 2` (`Donation.java:30`, `Distribution.java:22`), so it holds at most 8 integer digits, while the request check allows 10 (`DonationRequest.java:21`). The database error for 100,000,000.00 or more is not modelled.
- `BigDecimal` scale is not modelled: quantities are whole cents. The request-layer bean-validation bounds are stated as predicates in `entities.dfy` but are not imposed, because the services do not check them.
- `totalQuantity` of both reports is never set by the report builders and stays zero. The setters, no-argument constructors, getters and `toString` of the DTOs are not modelled.
- Logging (`System.out.println`), `@Transactional`, concurrency, the controllers, the UI and the Spring bootstrap are not part of this model.
- The check-then-save sequence of `recordDistribution` is modelled as one atomic step.
- Stock is not clamped at zero anywhere. A deleted donation can leave stock negative, and the inventory report shows it as is (`ReportSpec.NegativeStockReported`).
