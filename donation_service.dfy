/**
 * The donation service: registers donations unconditionally, deletes by id, and answers the
 * donation queries as responses.
 */
module DonationServices {
  import opened Wrappers
  import opened Text
  import opened DonationTypes
  import opened Entities
  import opened Ledger
  import opened DonorMapper
  import DR = DonationRepository

  /** The responses for the rows, in row order (`stream().map(toResponse)`). */
  function Responses(ds: seq<Donation>): (rs: seq<DonationResponse>)
    ensures |rs| == |ds| && forall i :: 0 <= i < |ds| ==> rs[i] == ToResponse(ds[i])
  {
    seq(|ds|, i requires 0 <= i < |ds| => ToResponse(ds[i]))
  }

  /** A response is among the responses for `ds` exactly when it is the response for one of them. */
  lemma ResponsesMembership(ds: seq<Donation>)
    ensures forall r :: r in Responses(ds) <==> exists d :: d in ds && r == ToResponse(d)
  {
    forall r | exists d :: d in ds && r == ToResponse(d) ensures r in Responses(ds) {
      var d :| d in ds && r == ToResponse(d);
      var i :| 0 <= i < |ds| && ds[i] == d;
      assert Responses(ds)[i] == r;
    }
  }

  /** `toResponse` copies every field, so each row's response occurs exactly as often as the row does. */
  lemma {:induction false} ResponsesMultiset(ds: seq<Donation>)
    ensures forall d :: multiset(Responses(ds))[ToResponse(d)] == multiset(ds)[d]
  {
    if ds != [] {
      var prefix, last := ds[..|ds| - 1], ds[|ds| - 1];
      ResponsesMultiset(prefix);
      assert ds == prefix + [last];
      assert Responses(ds) == Responses(prefix) + [ToResponse(last)];
      forall d ensures multiset(Responses(ds))[ToResponse(d)] == multiset(ds)[d] {
        if ToResponse(d) == ToResponse(last) { ToResponseInjective(d, last); }
      }
    }
  }

  /** Responses ordered by descending date. */
  ghost predicate NewestFirst(rs: seq<DonationResponse>) {
    forall i, j :: 0 <= i < j < |rs| ==> rs[i].donationDate >= rs[j].donationDate
  }

  /** The responses for the recent rows: one for each row dated on or after `sinceDate`, newest first. */
  lemma RecentResponses(ds: seq<Donation>, sinceDate: Date)
    ensures forall r :: r in Responses(DR.FindRecentDonations(ds, sinceDate)) <==>
              exists d :: d in ds && d.donationDate >= sinceDate && r == ToResponse(d)
    ensures NewestFirst(Responses(DR.FindRecentDonations(ds, sinceDate)))
  {
    var found := DR.FindRecentDonations(ds, sinceDate);
    DR.RecentMembers(ds, sinceDate);
    ResponsesMembership(found);
  }

  class DonationService {
    const donationRepository: DR.Repository

    constructor (donations: DR.Repository)
      ensures donationRepository == donations
    {
      donationRepository := donations;
    }

    /** The stored donations. */
    function Donations(): seq<Donation>
      reads donationRepository
    {
      donationRepository.records
    }

    /**
     * `registerDonation`: maps the request to a row (its date defaulting to `today`) and
     * saves it; there is no check on the quantity. What was donated of the row's type grows
     * by its quantity; other types are unaffected.
     */
    method RegisterDonation(request: DonationRequest, today: Date, now: Timestamp)
      returns (r: DonationResponse)
      requires donationRepository.Valid()
      modifies donationRepository
      ensures donationRepository.Valid()
      ensures var saved := ToEntity(request, today).(id := Some(old(donationRepository.nextId)), createdAt := Some(now));
        && r == ToResponse(saved)
        && Donations() == old(Donations()) + [saved]
        && donationRepository.nextId == old(donationRepository.nextId) + 1
      ensures forall t :: DR.DonatedOfType(Donations(), t)
                == old(DR.DonatedOfType(Donations(), t)) + if t == request.donationType then request.quantity else 0
    {
      var donation := ToEntity(request, today);
      var saved := donationRepository.Save(donation, now);
      forall t ensures DR.DonatedOfType(Donations(), t)
                 == DR.DonatedOfType(old(Donations()), t) + if t == request.donationType then request.quantity else 0 {
        DR.LinesAppend(old(Donations()), [saved]);
        SumOfTypeAppend(DR.Lines(old(Donations())), DR.Lines([saved]), t);
        assert DR.Lines([saved])[..0] == [];
      }
      r := ToResponse(saved);
    }

    /** `getAllDonations`: every row's response, in storage order. */
    function GetAllDonations(): (rs: seq<DonationResponse>)
      reads donationRepository
      ensures |rs| == |Donations()| && forall i :: 0 <= i < |rs| ==> rs[i] == ToResponse(Donations()[i])
    {
      Responses(donationRepository.FindAll())
    }

    /** `getDonationById`: the row's response, or "not found". */
    function GetDonationById(id: nat): (r: Result<DonationResponse, ServiceError>)
      reads donationRepository
      ensures r.Failure? <==> !donationRepository.ExistsById(id)
      ensures r.Failure? ==> r.error == DonationNotFound(id)
      ensures r.Success? ==> exists d :: d in Donations() && d.id == Some(id) && r.value == ToResponse(d)
    {
      match donationRepository.FindById(id)
      case None => Failure(DonationNotFound(id))
      case Some(d) => Success(ToResponse(d))
    }

    /** `getDonationsByDonor` */
    function GetDonationsByDonor(donorName: string): (rs: seq<DonationResponse>)
      reads donationRepository
      ensures forall r :: r in rs <==> exists d :: d in Donations() && d.donorName == donorName && r == ToResponse(d)
      ensures forall d :: multiset(rs)[ToResponse(d)] == if d.donorName == donorName then multiset(Donations())[d] else 0
    {
      var found := DR.FindByDonorName(donationRepository.records, donorName);
      ResponsesMembership(found);
      ResponsesMultiset(found);
      Responses(found)
    }

    /** `getDonationsByType` */
    function GetDonationsByType(t: DonationType): (rs: seq<DonationResponse>)
      reads donationRepository
      ensures forall r :: r in rs <==> exists d :: d in Donations() && d.donationType == t && r == ToResponse(d)
      ensures forall d :: multiset(rs)[ToResponse(d)] == if d.donationType == t then multiset(Donations())[d] else 0
    {
      var found := DR.FindByDonationType(donationRepository.records, t);
      ResponsesMembership(found);
      ResponsesMultiset(found);
      Responses(found)
    }

    /** `getDonationsByDateRange`: both ends inclusive. */
    function GetDonationsByDateRange(startDate: Date, endDate: Date): (rs: seq<DonationResponse>)
      reads donationRepository
      ensures forall r :: r in rs <==>
                exists d :: d in Donations() && startDate <= d.donationDate <= endDate && r == ToResponse(d)
      ensures forall d :: multiset(rs)[ToResponse(d)] == if startDate <= d.donationDate <= endDate then multiset(Donations())[d] else 0
    {
      var found := DR.FindByDonationDateBetween(donationRepository.records, startDate, endDate);
      ResponsesMembership(found);
      ResponsesMultiset(found);
      Responses(found)
    }

    /** `searchDonationsByDonor`: donor names containing the term, ignoring (ASCII) case. */
    function SearchDonationsByDonor(searchTerm: string): (rs: seq<DonationResponse>)
      reads donationRepository
      ensures forall r :: r in rs <==>
                exists d :: d in Donations() && ContainsIgnoreCase(d.donorName, searchTerm) && r == ToResponse(d)
      ensures forall d :: multiset(rs)[ToResponse(d)] == if ContainsIgnoreCase(d.donorName, searchTerm) then multiset(Donations())[d] else 0
    {
      var found := DR.FindByDonorNameContainingIgnoreCase(donationRepository.records, searchTerm);
      ResponsesMembership(found);
      ResponsesMultiset(found);
      Responses(found)
    }

    /** `getAllDonorNames`: each donor once, ascending. */
    function GetAllDonorNames(): (names: seq<string>)
      reads donationRepository
      ensures StrictlyAscending(names)
      ensures forall n :: n in names <==> exists d :: d in Donations() && d.donorName == n
    {
      DR.FindAllUniqueDonorNames(donationRepository.records)
    }

    /** `getTotalByDonor`: the donor's SUM, with NULL (no donations) read as zero. */
    function GetTotalByDonor(donorName: string): (total: Cents)
      reads donationRepository
      ensures total == SumOfKey(DR.Lines(Donations()), donorName)
      ensures (forall d :: d in Donations() ==> d.donorName != donorName) ==> total == 0
    {
      DR.GetTotalQuantityByDonor(donationRepository.records, donorName).GetOr(0)
    }

    /** `getRecentDonations`: those dated within the last `days` days of `today`, newest first. */
    function GetRecentDonations(days: int, today: Date): (rs: seq<DonationResponse>)
      reads donationRepository
      ensures var since := today - days;
              forall r :: r in rs <==>
                exists d :: d in Donations() && d.donationDate >= since && r == ToResponse(d)
      ensures var since := today - days;
              forall d :: multiset(rs)[ToResponse(d)] == if d.donationDate >= since then multiset(Donations())[d] else 0
      ensures NewestFirst(rs)
    {
      RecentSince(today - days)
    }

    /** The responses for the donations dated on or after `since`, newest first. */
    function RecentSince(since: Date): (rs: seq<DonationResponse>)
      reads donationRepository
      ensures forall r :: r in rs <==>
                exists d :: d in Donations() && d.donationDate >= since && r == ToResponse(d)
      ensures forall d :: multiset(rs)[ToResponse(d)] == if d.donationDate >= since then multiset(Donations())[d] else 0
      ensures NewestFirst(rs)
    {
      ResponsesMultiset(DR.FindRecentDonations(Donations(), since));
      RecentResponses(Donations(), since);
      Responses(DR.FindRecentDonations(Donations(), since))
    }

    /**
     * `deleteDonation`: "not found" and nothing deleted when no row has the id; otherwise
     * exactly that row is removed and the others keep their order.
     */
    method DeleteDonation(id: nat) returns (r: Result<(), ServiceError>)
      requires donationRepository.Valid()
      modifies donationRepository
      ensures donationRepository.Valid()
      ensures !old(donationRepository.ExistsById(id)) ==>
                r == Failure(DonationNotFound(id)) && Donations() == old(Donations())
      ensures donationRepository.nextId == old(donationRepository.nextId)
      ensures old(donationRepository.ExistsById(id)) ==>
                && r == Success(())
                && exists k :: 0 <= k < |old(Donations())| && old(Donations())[k].id == Some(id)
                     && Donations() == old(Donations())[..k] + old(Donations())[k + 1..]
    {
      if !donationRepository.ExistsById(id) {
        return Failure(DonationNotFound(id));
      }
      var k :| 0 <= k < |Donations()| && Donations()[k].id == Some(id);
      DR.DeleteRemovesOne(Donations(), k, id);
      donationRepository.DeleteById(id);
      r := Success(());
    }

    /** `getTotalDonationCount` */
    function GetTotalDonationCount(): (n: nat)
      reads donationRepository
      ensures n == |Donations()|
    {
      donationRepository.Count()
    }
  }
}
