/**
 * The donation table: a store class for `save`, `existsById`, `findById`, `deleteById`,
 * `findAll` and `count`, and the repository's declared queries as functions over the
 * stored rows.
 */
module DonationRepository {
  import opened Wrappers
  import opened Text
  import opened DonationTypes
  import opened Entities
  import opened Ledger
  import opened Seqs

  /** The aggregate view of a donation: grouped under its donor's name. */
  function LineOf(d: Donation): Line {
    Line(Some(d.donorName), d.donationType, d.quantity)
  }

  function Lines(ds: seq<Donation>): (ls: seq<Line>)
    ensures |ls| == |ds| && forall i :: 0 <= i < |ds| ==> ls[i] == LineOf(ds[i])
  {
    seq(|ds|, i requires 0 <= i < |ds| => LineOf(ds[i]))
  }

  lemma LinesAppend(a: seq<Donation>, b: seq<Donation>)
    ensures Lines(a + b) == Lines(a) + Lines(b)
  {
  }

  /** Total donated of type `t`: the sum over the donations of that type. */
  function DonatedOfType(ds: seq<Donation>, t: DonationType): Cents {
    SumOfType(Lines(ds), t)
  }

  /** The `WHERE donationType = t` condition. */
  function OfType(t: DonationType): Donation -> bool {
    (d: Donation) => d.donationType == t
  }

  /** The condition that keeps every row except those carrying `id`. */
  function IdIsNot(id: nat): Donation -> bool {
    (d: Donation) => d.id != Some(id)
  }

  /** The sort key of `ORDER BY donationDate DESC`. */
  function DateKey(): Donation -> int {
    (d: Donation) => d.donationDate
  }

  // ---------------------------------------------------------------------------
  // Declared queries

  /** `findByDonorName` */
  function FindByDonorName(ds: seq<Donation>, donorName: string): (r: seq<Donation>)
    ensures forall d :: multiset(r)[d] == if d.donorName == donorName then multiset(ds)[d] else 0
  {
    var p := (d: Donation) => d.donorName == donorName;
    FilterMultiset(ds, p);
    Filter(ds, p)
  }

  /** `findByDonationType` */
  function FindByDonationType(ds: seq<Donation>, t: DonationType): (r: seq<Donation>)
    ensures forall d :: multiset(r)[d] == if d.donationType == t then multiset(ds)[d] else 0
  {
    FilterMultiset(ds, OfType(t));
    Filter(ds, OfType(t))
  }

  /** `findByDonorNameContainingIgnoreCase` (ASCII case folding) */
  function FindByDonorNameContainingIgnoreCase(ds: seq<Donation>, term: string): (r: seq<Donation>)
    ensures forall d :: multiset(r)[d] == if ContainsIgnoreCase(d.donorName, term) then multiset(ds)[d] else 0
  {
    var p := (d: Donation) => ContainsIgnoreCase(d.donorName, term);
    FilterMultiset(ds, p);
    Filter(ds, p)
  }

  /** `findByDonationDateBetween`: both ends inclusive. */
  function FindByDonationDateBetween(ds: seq<Donation>, startDate: Date, endDate: Date): (r: seq<Donation>)
    ensures forall d :: multiset(r)[d] == if startDate <= d.donationDate <= endDate then multiset(ds)[d] else 0
  {
    var p := (d: Donation) => startDate <= d.donationDate <= endDate;
    FilterMultiset(ds, p);
    Filter(ds, p)
  }

  /** `findByDonationTypeAndDonationDateBetween` */
  function FindByDonationTypeAndDonationDateBetween(ds: seq<Donation>, t: DonationType, startDate: Date, endDate: Date)
    : (r: seq<Donation>)
    ensures forall d :: multiset(r)[d] ==
                        if d.donationType == t && startDate <= d.donationDate <= endDate then multiset(ds)[d] else 0
  {
    var p := (d: Donation) => d.donationType == t && startDate <= d.donationDate <= endDate;
    FilterMultiset(ds, p);
    Filter(ds, p)
  }

  /** `getTotalQuantityByType`: one row per donated type, with that type's total. */
  function GetTotalQuantityByType(ds: seq<Donation>): (rows: seq<TypeTotal>)
    ensures forall r :: r in rows <==>
      (exists i :: 0 <= i < |ds| && ds[i].donationType == r.donationType) && r.total == DonatedOfType(ds, r.donationType)
    ensures forall i, j :: 0 <= i < j < |rows| ==> rows[i].donationType != rows[j].donationType
  {
    AllTypesComplete();
    TypeTotalsRows(Lines(ds), AllTypes);
    TypeTotalsDistinct(Lines(ds), AllTypes);
    assert forall t :: t in TypesIn(Lines(ds)) <==> exists i :: 0 <= i < |ds| && ds[i].donationType == t by {
      forall t | t in TypesIn(Lines(ds)) ensures exists i :: 0 <= i < |ds| && ds[i].donationType == t {
        var l :| l in Lines(ds) && l.donationType == t;
        var i :| 0 <= i < |ds| && Lines(ds)[i] == l;
      }
      forall t | exists i :: 0 <= i < |ds| && ds[i].donationType == t ensures t in TypesIn(Lines(ds)) {
        var i :| 0 <= i < |ds| && ds[i].donationType == t;
        assert Lines(ds)[i] in Lines(ds);
      }
    }
    GroupByType(Lines(ds))
  }

  /** `getTotalDonationsByDonor`: `[donor, type, total]` rows grouped by donor and type, ordered by donor. */
  function GetTotalDonationsByDonor(ds: seq<Donation>): seq<KeyTypeTotal> {
    GroupByKeyAndType(Lines(ds))
  }

  /**
   * The donor grouping holds one `[donor, type, total]` row for each donor and type some
   * donation has, carrying the sum of that donor's donations of that type, in donor order.
   */
  lemma DonorGroups(ds: seq<Donation>)
    ensures forall r :: r in GetTotalDonationsByDonor(ds) <==>
              (exists i :: 0 <= i < |ds| && ds[i].donorName == r.key && ds[i].donationType == r.donationType)
              && r.total == SumOfKeyType(Lines(ds), r.key, r.donationType)
    ensures KeysAscending(GetTotalDonationsByDonor(ds))
    ensures GroupsDistinct(GetTotalDonationsByDonor(ds))
  {
    GroupByKeyAndTypeSpec(Lines(ds));
    forall k, t ensures HasKeyType(Lines(ds), k, t) <==>
        exists i :: 0 <= i < |ds| && ds[i].donorName == k && ds[i].donationType == t {
      if HasKeyType(Lines(ds), k, t) {
        var i :| 0 <= i < |Lines(ds)| && Lines(ds)[i].key == Some(k) && Lines(ds)[i].donationType == t;
        assert ds[i].donorName == k;
      }
      if exists i :: 0 <= i < |ds| && ds[i].donorName == k && ds[i].donationType == t {
        var i :| 0 <= i < |ds| && ds[i].donorName == k && ds[i].donationType == t;
        assert Lines(ds)[i] == LineOf(ds[i]);
      }
    }
  }

  /** `getTotalQuantityByDonor`: SUM over the donor's donations, NULL (None) when there are none. */
  function GetTotalQuantityByDonor(ds: seq<Donation>, donorName: string): (r: Option<Cents>)
    ensures r.None? <==> forall i :: 0 <= i < |ds| ==> ds[i].donorName != donorName
    ensures r.Some? ==> r.value == SumOfKey(Lines(ds), donorName)
  {
    assert forall i :: 0 <= i < |ds| ==> Lines(ds)[i].key == Some(ds[i].donorName);
    TotalForKey(Lines(ds), donorName)
  }

  /** `findAllUniqueDonorNames`: every donor name once, in ascending order. */
  function FindAllUniqueDonorNames(ds: seq<Donation>): (names: seq<string>)
    ensures StrictlyAscending(names)
    ensures forall n :: n in names <==> exists i :: 0 <= i < |ds| && ds[i].donorName == n
  {
    assert forall i :: 0 <= i < |ds| ==> Lines(ds)[i].key == Some(ds[i].donorName);
    DistinctKeys(Lines(ds))
  }

  lemma PositionsOfType(ds: seq<Donation>, t: DonationType)
    ensures Positions(ds, OfType(t)) == set i | 0 <= i < |ds| && ds[i].donationType == t
  {
  }

  /** `countByDonationType` */
  function CountByDonationType(ds: seq<Donation>, t: DonationType): (n: nat)
    ensures n == |set i | 0 <= i < |ds| && ds[i].donationType == t|
  {
    PositionsOfType(ds, t);
    PositionsCount(ds, OfType(t));
    |FindByDonationType(ds, t)|
  }

  /** `findRecentDonations`: the donations dated on or after `sinceDate`, newest first. */
  function FindRecentDonations(ds: seq<Donation>, sinceDate: Date): (r: seq<Donation>)
    ensures Descending(r, DateKey())
    ensures forall d :: multiset(r)[d] == if d.donationDate >= sinceDate then multiset(ds)[d] else 0
  {
    var p := (d: Donation) => d.donationDate >= sinceDate;
    FilterMultiset(ds, p);
    SortDescending(Filter(ds, p), DateKey())
  }

  /** The recent rows are exactly the rows dated on or after `sinceDate`, newest first. */
  lemma RecentMembers(ds: seq<Donation>, sinceDate: Date)
    ensures forall d :: d in FindRecentDonations(ds, sinceDate) <==> d in ds && d.donationDate >= sinceDate
    ensures var r := FindRecentDonations(ds, sinceDate);
      forall i, j :: 0 <= i < j < |r| ==> r[i].donationDate >= r[j].donationDate
  {
    var r := FindRecentDonations(ds, sinceDate);
    forall d ensures d in r <==> d in ds && d.donationDate >= sinceDate {
      assert d in r <==> d in multiset(r);
      assert d in ds <==> d in multiset(ds);
    }
    forall i, j | 0 <= i < j < |r| ensures r[i].donationDate >= r[j].donationDate {
      assert DateKey()(r[i]) >= DateKey()(r[j]);
    }
  }

  /** The record kept under `id`, if any (first match). */
  function Lookup(ds: seq<Donation>, id: nat): (r: Option<Donation>)
    ensures r.None? <==> forall i :: 0 <= i < |ds| ==> ds[i].id != Some(id)
    ensures r.Some? ==> r.value in ds && r.value.id == Some(id)
  {
    if ds == [] then None
    else if ds[0].id == Some(id) then Some(ds[0])
    else
      var r := Lookup(ds[1..], id);
      assert forall i :: 0 < i < |ds| ==> ds[i] == ds[1..][i - 1];
      r
  }

  function IdOf(): Donation -> Option<nat> {
    (d: Donation) => d.id
  }

  /** No two stored rows share an id. */
  ghost predicate UniqueIds(ds: seq<Donation>) {
    DistinctBy(ds, IdOf())
  }

  /** Deleting by an id that one row carries removes that row and keeps the others in order. */
  lemma DeleteRemovesOne(ds: seq<Donation>, k: nat, id: nat)
    requires UniqueIds(ds) && k < |ds| && ds[k].id == Some(id)
    ensures Filter(ds, IdIsNot(id)) == ds[..k] + ds[k + 1..]
  {
    forall j | 0 <= j < |ds| && j != k ensures IdIsNot(id)(ds[j]) {
      if j < k { assert IdOf()(ds[j]) != IdOf()(ds[k]); }
      else { assert IdOf()(ds[k]) != IdOf()(ds[j]); }
    }
    FilterRemovesOne(ds, IdIsNot(id), k);
  }

  /** The donation table. Ids come from an identity counter; `createdAt` is set on insert. */
  class Repository {
    var records: seq<Donation>
    var nextId: nat

    ghost predicate Valid()
      reads this
    {
      && UniqueIds(records)
      && forall i :: 0 <= i < |records| ==>
           records[i].id.Some? && records[i].id.value < nextId && records[i].createdAt.Some?
    }

    constructor ()
      ensures Valid() && records == [] && nextId == 1
    {
      records := [];
      nextId := 1;
    }

    /** `save` of a new row: assigns the next id, stamps `createdAt` and appends the row. */
    method Save(d: Donation, now: Timestamp) returns (saved: Donation)
      requires Valid() && d.id.None?
      modifies this
      ensures Valid()
      ensures saved == d.(id := Some(old(nextId)), createdAt := Some(now))
      ensures records == old(records) + [saved]
      ensures nextId == old(nextId) + 1
    {
      saved := d.(id := Some(nextId), createdAt := Some(now));
      records := records + [saved];
      nextId := nextId + 1;
    }

    /** `existsById` */
    function ExistsById(id: nat): (b: bool)
      reads this
      ensures b <==> exists i :: 0 <= i < |records| && records[i].id == Some(id)
    {
      Lookup(records, id).Some?
    }

    /** `findById` */
    function FindById(id: nat): (r: Option<Donation>)
      reads this
      ensures r.None? <==> !ExistsById(id)
      ensures r.Some? ==> r.value in records && r.value.id == Some(id)
    {
      Lookup(records, id)
    }

    /** `deleteById`: removes the rows carrying `id`. */
    method DeleteById(id: nat)
      requires Valid()
      modifies this
      ensures Valid()
      ensures records == Filter(old(records), IdIsNot(id))
      ensures nextId == old(nextId)
    {
      FilterDistinctBy(records, IdIsNot(id), IdOf());
      var kept := Filter(records, IdIsNot(id));
      forall i | 0 <= i < |kept| ensures kept[i].id.Some? && kept[i].id.value < nextId && kept[i].createdAt.Some? {
        assert kept[i] in records;
      }
      records := kept;
    }

    /** `findAll`: the rows in insertion order. */
    function FindAll(): seq<Donation>
      reads this
    {
      records
    }

    /** `count` */
    function Count(): nat
      reads this
    {
      |records|
    }
  }
}
