/**
 * The distribution service: records a distribution only when the stock covers it, deletes
 * by id, and answers the distribution queries as responses.
 */
module DistributionServices {
  import opened Wrappers
  import opened Text
  import opened DonationTypes
  import opened Entities
  import opened Seqs
  import opened ReportSpec
  import opened Reports
  import opened DistributionMapper
  import XR = DistributionRepository

  /** The responses for the rows, in row order (`stream().map(toResponse)`). */
  function Responses(xs: seq<Distribution>): (rs: seq<DistributionResponse>)
    ensures |rs| == |xs| && forall i :: 0 <= i < |xs| ==> rs[i] == ToResponse(xs[i])
  {
    seq(|xs|, i requires 0 <= i < |xs| => ToResponse(xs[i]))
  }

  /** A response is among the responses for `xs` exactly when it is the response for one of them. */
  lemma ResponsesMembership(xs: seq<Distribution>)
    ensures forall r :: r in Responses(xs) <==> exists x :: x in xs && r == ToResponse(x)
  {
    forall r | exists x :: x in xs && r == ToResponse(x) ensures r in Responses(xs) {
      var x :| x in xs && r == ToResponse(x);
      var i :| 0 <= i < |xs| && xs[i] == x;
      assert Responses(xs)[i] == r;
    }
  }

  /** `toResponse` copies every field, so each row's response occurs exactly as often as the row does. */
  lemma {:induction false} ResponsesMultiset(xs: seq<Distribution>)
    ensures forall x :: multiset(Responses(xs))[ToResponse(x)] == multiset(xs)[x]
  {
    if xs != [] {
      var prefix, last := xs[..|xs| - 1], xs[|xs| - 1];
      ResponsesMultiset(prefix);
      assert xs == prefix + [last];
      assert Responses(xs) == Responses(prefix) + [ToResponse(last)];
      forall x ensures multiset(Responses(xs))[ToResponse(x)] == multiset(xs)[x] {
        if ToResponse(x) == ToResponse(last) { ToResponseInjective(x, last); }
      }
    }
  }

  /** Responses ordered by descending date. */
  ghost predicate NewestFirst(rs: seq<DistributionResponse>) {
    forall i, j :: 0 <= i < j < |rs| ==> rs[i].distributionDate >= rs[j].distributionDate
  }

  /** The responses for the recent rows: one for each row dated on or after `sinceDate`, newest first. */
  lemma RecentResponses(xs: seq<Distribution>, sinceDate: Date)
    ensures forall r :: r in Responses(XR.FindRecentDistributions(xs, sinceDate)) <==>
              exists x :: x in xs && x.distributionDate >= sinceDate && r == ToResponse(x)
    ensures NewestFirst(Responses(XR.FindRecentDistributions(xs, sinceDate)))
  {
    var found := XR.FindRecentDistributions(xs, sinceDate);
    XR.RecentMembers(xs, sinceDate);
    ResponsesMembership(found);
  }

  class DistributionService {
    const distributionRepository: XR.Repository
    const reportService: ReportService

    /** The service and the report service read the same distribution table, whose rows are well formed. */
    ghost predicate Valid()
      reads distributionRepository
    {
      && reportService.distributionRepository == distributionRepository
      && distributionRepository.Valid()
    }

    constructor (distributions: XR.Repository, reports: ReportService)
      requires reports.distributionRepository == distributions && distributions.Valid()
      ensures distributionRepository == distributions && reportService == reports && Valid()
    {
      distributionRepository := distributions;
      reportService := reports;
    }

    /** The stored distributions. */
    function Distributions(): seq<Distribution>
      reads distributionRepository
    {
      distributionRepository.records
    }

    /**
     * `recordDistribution`: maps the request to a row (its date defaulting to `today`), asks
     * whether the stock of its type covers its quantity, and saves it only if so. The stock
     * after saving is the stock before minus the quantity, so it never goes below zero.
     */
    method RecordDistribution(request: DistributionRequest, today: Date, now: Timestamp)
      returns (r: Result<DistributionResponse, ServiceError>)
      requires Valid()
      modifies distributionRepository
      ensures Valid()
      ensures var x := ToEntity(request, today);
        && (old(Stock(reportService.Donations(), Distributions(), x.donationType)) < x.quantity ==>
              r == Failure(InsufficientInventory) && Distributions() == old(Distributions())
              && distributionRepository.nextId == old(distributionRepository.nextId))
        && (old(Stock(reportService.Donations(), Distributions(), x.donationType)) >= x.quantity ==>
              var saved := x.(id := Some(old(distributionRepository.nextId)), createdAt := Some(now));
              && r == Success(ToResponse(saved))
              && Distributions() == old(Distributions()) + [saved]
              && distributionRepository.nextId == old(distributionRepository.nextId) + 1)
      ensures r.Success? ==>
        && Stock(reportService.Donations(), Distributions(), request.donationType)
           == old(Stock(reportService.Donations(), Distributions(), request.donationType)) - request.quantity
        && Stock(reportService.Donations(), Distributions(), request.donationType) >= 0
    {
      var distribution := ToEntity(request, today);
      var validation := reportService.CheckInventory(distribution.donationType, distribution.quantity);
      if !validation.sufficient {
        return Failure(InsufficientInventory);
      }
      var saved := distributionRepository.Save(distribution, now);
      StockAfterDistribution(reportService.Donations(), old(Distributions()), saved, saved.donationType);
      r := Success(ToResponse(saved));
    }

    /** `getAllDistributions`: every row's response, in storage order. */
    function GetAllDistributions(): (rs: seq<DistributionResponse>)
      reads distributionRepository
      ensures |rs| == |Distributions()| && forall i :: 0 <= i < |rs| ==> rs[i] == ToResponse(Distributions()[i])
    {
      Responses(distributionRepository.FindAll())
    }

    /** `getDistributionById`: the row's response, or "not found". */
    function GetDistributionById(id: nat): (r: Result<DistributionResponse, ServiceError>)
      reads distributionRepository
      ensures r.Failure? <==> !distributionRepository.ExistsById(id)
      ensures r.Failure? ==> r.error == DistributionNotFound(id)
      ensures r.Success? ==> exists x :: x in Distributions() && x.id == Some(id) && r.value == ToResponse(x)
    {
      match distributionRepository.FindById(id)
      case None => Failure(DistributionNotFound(id))
      case Some(x) => Success(ToResponse(x))
    }

    /** `getDistributionsByType` */
    function GetDistributionsByType(t: DonationType): (rs: seq<DistributionResponse>)
      reads distributionRepository
      ensures forall r :: r in rs <==> exists x :: x in Distributions() && x.donationType == t && r == ToResponse(x)
      ensures forall x :: multiset(rs)[ToResponse(x)] == if x.donationType == t then multiset(Distributions())[x] else 0
    {
      var found := XR.FindByDonationType(distributionRepository.records, t);
      ResponsesMembership(found);
      ResponsesMultiset(found);
      Responses(found)
    }

    /** `getDistributionsByDateRange`: both ends inclusive. */
    function GetDistributionsByDateRange(startDate: Date, endDate: Date): (rs: seq<DistributionResponse>)
      reads distributionRepository
      ensures forall r :: r in rs <==>
                exists x :: x in Distributions() && startDate <= x.distributionDate <= endDate && r == ToResponse(x)
      ensures forall x :: multiset(rs)[ToResponse(x)] == if startDate <= x.distributionDate <= endDate then multiset(Distributions())[x] else 0
    {
      var found := XR.FindByDistributionDateBetween(distributionRepository.records, startDate, endDate);
      ResponsesMembership(found);
      ResponsesMultiset(found);
      Responses(found)
    }

    /** `getDistributionsByRecipient` */
    function GetDistributionsByRecipient(recipient: string): (rs: seq<DistributionResponse>)
      reads distributionRepository
      ensures forall r :: r in rs <==>
                exists x :: x in Distributions() && x.recipient == Some(recipient) && r == ToResponse(x)
      ensures forall x :: multiset(rs)[ToResponse(x)] == if x.recipient == Some(recipient) then multiset(Distributions())[x] else 0
    {
      var found := XR.FindByRecipient(distributionRepository.records, recipient);
      ResponsesMembership(found);
      ResponsesMultiset(found);
      Responses(found)
    }

    /** `searchDistributionsByRecipient`: recipients containing the term, ignoring (ASCII) case. */
    function SearchDistributionsByRecipient(searchTerm: string): (rs: seq<DistributionResponse>)
      reads distributionRepository
      ensures forall r :: r in rs <==>
                exists x :: x in Distributions() && x.recipient.Some?
                  && ContainsIgnoreCase(x.recipient.value, searchTerm) && r == ToResponse(x)
      ensures forall x :: multiset(rs)[ToResponse(x)] == if x.recipient.Some? && ContainsIgnoreCase(x.recipient.value, searchTerm) then multiset(Distributions())[x] else 0
    {
      var found := XR.FindByRecipientContainingIgnoreCase(distributionRepository.records, searchTerm);
      ResponsesMembership(found);
      ResponsesMultiset(found);
      Responses(found)
    }

    /** `getAllRecipients`: each recipient once, ascending. */
    function GetAllRecipients(): (names: seq<string>)
      reads distributionRepository
      ensures StrictlyAscending(names)
      ensures forall n :: n in names <==> exists x :: x in Distributions() && x.recipient == Some(n)
    {
      XR.FindAllUniqueRecipients(distributionRepository.records)
    }

    /** `getTotalByType`: the per-type SUM, with NULL read as zero. */
    function GetTotalByType(t: DonationType): (total: Cents)
      reads distributionRepository
      ensures total == XR.DistributedOfType(Distributions(), t)
      ensures (forall x :: x in Distributions() ==> x.donationType != t) ==> total == 0
    {
      XR.TypesInLines(distributionRepository.records);
      XR.GetTotalQuantityForType(distributionRepository.records, t).GetOr(0)
    }

    /** `getRecentDistributions`: those dated within the last `days` days of `today`, newest first. */
    function GetRecentDistributions(days: int, today: Date): (rs: seq<DistributionResponse>)
      reads distributionRepository
      ensures var since := today - days;
              forall r :: r in rs <==>
                exists x :: x in Distributions() && x.distributionDate >= since && r == ToResponse(x)
      ensures var since := today - days;
              forall x :: multiset(rs)[ToResponse(x)] == if x.distributionDate >= since then multiset(Distributions())[x] else 0
      ensures NewestFirst(rs)
    {
      RecentSince(today - days)
    }

    /** The responses for the distributions dated on or after `since`, newest first. */
    function RecentSince(since: Date): (rs: seq<DistributionResponse>)
      reads distributionRepository
      ensures forall r :: r in rs <==>
                exists x :: x in Distributions() && x.distributionDate >= since && r == ToResponse(x)
      ensures forall x :: multiset(rs)[ToResponse(x)] == if x.distributionDate >= since then multiset(Distributions())[x] else 0
      ensures NewestFirst(rs)
    {
      ResponsesMultiset(XR.FindRecentDistributions(Distributions(), since));
      RecentResponses(distributionRepository.records, since);
      Responses(XR.FindRecentDistributions(distributionRepository.records, since))
    }

    /**
     * `deleteDistribution`: "not found" and nothing deleted when no row has the id;
     * otherwise exactly that row is removed and the others keep their order.
     */
    method DeleteDistribution(id: nat) returns (r: Result<(), ServiceError>)
      requires Valid()
      modifies distributionRepository
      ensures Valid()
      ensures !old(distributionRepository.ExistsById(id)) ==>
                r == Failure(DistributionNotFound(id)) && Distributions() == old(Distributions())
      ensures distributionRepository.nextId == old(distributionRepository.nextId)
      ensures old(distributionRepository.ExistsById(id)) ==>
                && r == Success(())
                && exists k :: 0 <= k < |old(Distributions())| && old(Distributions())[k].id == Some(id)
                     && Distributions() == old(Distributions())[..k] + old(Distributions())[k + 1..]
    {
      if !distributionRepository.ExistsById(id) {
        return Failure(DistributionNotFound(id));
      }
      var k :| 0 <= k < |Distributions()| && Distributions()[k].id == Some(id);
      XR.DeleteRemovesOne(Distributions(), k, id);
      distributionRepository.DeleteById(id);
      r := Success(());
    }

    /** `getTotalDistributionCount` */
    function GetTotalDistributionCount(): (n: nat)
      reads distributionRepository
      ensures n == |Distributions()|
    {
      distributionRepository.Count()
    }
  }
}
