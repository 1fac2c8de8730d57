/**
 * The distribution table: a store class for `save`, `existsById`, `findById`, `deleteById`,
 * `findAll` and `count`, and the repository's declared queries as functions over the
 * stored rows.
 */
module DistributionRepository {
  import opened Wrappers
  import opened Text
  import opened DonationTypes
  import opened Entities
  import opened Ledger
  import opened Seqs

  /** The aggregate view of a distribution: grouped under its recipient, which may be NULL. */
  function LineOf(x: Distribution): Line {
    Line(x.recipient, x.donationType, x.quantity)
  }

  function Lines(xs: seq<Distribution>): (ls: seq<Line>)
    ensures |ls| == |xs| && forall i :: 0 <= i < |xs| ==> ls[i] == LineOf(xs[i])
  {
    seq(|xs|, i requires 0 <= i < |xs| => LineOf(xs[i]))
  }

  lemma LinesAppend(a: seq<Distribution>, b: seq<Distribution>)
    ensures Lines(a + b) == Lines(a) + Lines(b)
  {
  }

  /** Total distributed of type `t`: the sum over the distributions of that type. */
  function DistributedOfType(xs: seq<Distribution>, t: DonationType): Cents {
    SumOfType(Lines(xs), t)
  }

  /** The `WHERE donationType = t` condition. */
  function OfType(t: DonationType): Distribution -> bool {
    (x: Distribution) => x.donationType == t
  }

  /** The condition that keeps every row except those carrying `id`. */
  function IdIsNot(id: nat): Distribution -> bool {
    (x: Distribution) => x.id != Some(id)
  }

  function IdOf(): Distribution -> Option<nat> {
    (x: Distribution) => x.id
  }

  /** The sort key of `ORDER BY distributionDate DESC`. */
  function DateKey(): Distribution -> int {
    (x: Distribution) => x.distributionDate
  }

  // ---------------------------------------------------------------------------
  // Declared queries

  /** `findByDonationType` */
  function FindByDonationType(xs: seq<Distribution>, t: DonationType): (r: seq<Distribution>)
    ensures forall x :: multiset(r)[x] == if x.donationType == t then multiset(xs)[x] else 0
  {
    FilterMultiset(xs, OfType(t));
    Filter(xs, OfType(t))
  }

  /** `findByDistributionDateBetween`: both ends inclusive. */
  function FindByDistributionDateBetween(xs: seq<Distribution>, startDate: Date, endDate: Date): (r: seq<Distribution>)
    ensures forall x :: multiset(r)[x] == if startDate <= x.distributionDate <= endDate then multiset(xs)[x] else 0
  {
    var p := (x: Distribution) => startDate <= x.distributionDate <= endDate;
    FilterMultiset(xs, p);
    Filter(xs, p)
  }

  /** `findByDonationTypeAndDistributionDateBetween` */
  function FindByDonationTypeAndDistributionDateBetween(xs: seq<Distribution>, t: DonationType, startDate: Date, endDate: Date)
    : (r: seq<Distribution>)
    ensures forall x :: multiset(r)[x] ==
                        if x.donationType == t && startDate <= x.distributionDate <= endDate then multiset(xs)[x] else 0
  {
    var p := (x: Distribution) => x.donationType == t && startDate <= x.distributionDate <= endDate;
    FilterMultiset(xs, p);
    Filter(xs, p)
  }

  /** `findByRecipient`: rows whose recipient equals the given name (rows without a recipient never match). */
  function FindByRecipient(xs: seq<Distribution>, recipient: string): (r: seq<Distribution>)
    ensures forall x :: multiset(r)[x] == if x.recipient == Some(recipient) then multiset(xs)[x] else 0
  {
    var p := (x: Distribution) => x.recipient == Some(recipient);
    FilterMultiset(xs, p);
    Filter(xs, p)
  }

  /** `findByRecipientContainingIgnoreCase` (ASCII case folding); a NULL recipient never matches. */
  function FindByRecipientContainingIgnoreCase(xs: seq<Distribution>, term: string): (r: seq<Distribution>)
    ensures forall x :: multiset(r)[x] ==
                        if x.recipient.Some? && ContainsIgnoreCase(x.recipient.value, term) then multiset(xs)[x] else 0
  {
    var p := (x: Distribution) => x.recipient.Some? && ContainsIgnoreCase(x.recipient.value, term);
    FilterMultiset(xs, p);
    Filter(xs, p)
  }

  /** `getTotalQuantityByType()`: one row per distributed type, with that type's total. */
  function GetTotalQuantityByType(xs: seq<Distribution>): (rows: seq<TypeTotal>)
    ensures forall r :: r in rows <==>
      (exists i :: 0 <= i < |xs| && xs[i].donationType == r.donationType) && r.total == DistributedOfType(xs, r.donationType)
    ensures forall i, j :: 0 <= i < j < |rows| ==> rows[i].donationType != rows[j].donationType
  {
    AllTypesComplete();
    TypeTotalsRows(Lines(xs), AllTypes);
    TypeTotalsDistinct(Lines(xs), AllTypes);
    TypesInLines(xs);
    GroupByType(Lines(xs))
  }

  lemma TypesInLines(xs: seq<Distribution>)
    ensures forall t :: t in TypesIn(Lines(xs)) <==> exists i :: 0 <= i < |xs| && xs[i].donationType == t
  {
    forall t | t in TypesIn(Lines(xs)) ensures exists i :: 0 <= i < |xs| && xs[i].donationType == t {
      var l :| l in Lines(xs) && l.donationType == t;
      var i :| 0 <= i < |xs| && Lines(xs)[i] == l;
    }
    forall t | exists i :: 0 <= i < |xs| && xs[i].donationType == t ensures t in TypesIn(Lines(xs)) {
      var i :| 0 <= i < |xs| && xs[i].donationType == t;
      assert Lines(xs)[i] in Lines(xs);
    }
  }

  /**
   * `getTotalQuantityByType(donationType)`, the single-type overload: the SUM over the
   * distributions of that type, NULL (None) when there are none.
   */
  function GetTotalQuantityForType(xs: seq<Distribution>, t: DonationType): (r: Option<Cents>)
    ensures r.None? <==> forall i :: 0 <= i < |xs| ==> xs[i].donationType != t
    ensures r.Some? ==> r.value == DistributedOfType(xs, t)
  {
    TypesInLines(xs);
    TotalForType(Lines(xs), t)
  }

  /** `getDistributionsByRecipient`: `[recipient, type, total]` rows of non-NULL recipients, ordered by recipient. */
  function GetDistributionsByRecipient(xs: seq<Distribution>): seq<KeyTypeTotal> {
    GroupByKeyAndType(Lines(xs))
  }

  /**
   * The recipient grouping holds one `[recipient, type, total]` row for each non-NULL
   * recipient and type some distribution has, carrying the sum of those distributions, in
   * recipient order.
   */
  lemma RecipientGroups(xs: seq<Distribution>)
    ensures forall r :: r in GetDistributionsByRecipient(xs) <==>
              (exists i :: 0 <= i < |xs| && xs[i].recipient == Some(r.key) && xs[i].donationType == r.donationType)
              && r.total == SumOfKeyType(Lines(xs), r.key, r.donationType)
    ensures KeysAscending(GetDistributionsByRecipient(xs))
    ensures GroupsDistinct(GetDistributionsByRecipient(xs))
  {
    GroupByKeyAndTypeSpec(Lines(xs));
    forall k, t ensures HasKeyType(Lines(xs), k, t) <==>
        exists i :: 0 <= i < |xs| && xs[i].recipient == Some(k) && xs[i].donationType == t {
      if HasKeyType(Lines(xs), k, t) {
        var i :| 0 <= i < |Lines(xs)| && Lines(xs)[i].key == Some(k) && Lines(xs)[i].donationType == t;
        assert xs[i].recipient == Some(k);
      }
      if exists i :: 0 <= i < |xs| && xs[i].recipient == Some(k) && xs[i].donationType == t {
        var i :| 0 <= i < |xs| && xs[i].recipient == Some(k) && xs[i].donationType == t;
        assert Lines(xs)[i] == LineOf(xs[i]);
      }
    }
  }

  /** `countByDonationType` */
  function CountByDonationType(xs: seq<Distribution>, t: DonationType): (n: nat)
    ensures n == |set i | 0 <= i < |xs| && xs[i].donationType == t|
  {
    PositionsOfType(xs, t);
    PositionsCount(xs, OfType(t));
    |FindByDonationType(xs, t)|
  }

  lemma PositionsOfType(xs: seq<Distribution>, t: DonationType)
    ensures Positions(xs, OfType(t)) == set i | 0 <= i < |xs| && xs[i].donationType == t
  {
  }

  /** `findRecentDistributions`: the distributions dated on or after `sinceDate`, newest first. */
  function FindRecentDistributions(xs: seq<Distribution>, sinceDate: Date): (r: seq<Distribution>)
    ensures Descending(r, DateKey())
    ensures forall x :: multiset(r)[x] == if x.distributionDate >= sinceDate then multiset(xs)[x] else 0
  {
    var p := (x: Distribution) => x.distributionDate >= sinceDate;
    FilterMultiset(xs, p);
    SortDescending(Filter(xs, p), DateKey())
  }

  /** The recent rows are exactly the rows dated on or after `sinceDate`, newest first. */
  lemma RecentMembers(xs: seq<Distribution>, sinceDate: Date)
    ensures forall x :: x in FindRecentDistributions(xs, sinceDate) <==> x in xs && x.distributionDate >= sinceDate
    ensures var r := FindRecentDistributions(xs, sinceDate);
      forall i, j :: 0 <= i < j < |r| ==> r[i].distributionDate >= r[j].distributionDate
  {
    var r := FindRecentDistributions(xs, sinceDate);
    forall x ensures x in r <==> x in xs && x.distributionDate >= sinceDate {
      assert x in r <==> x in multiset(r);
      assert x in xs <==> x in multiset(xs);
    }
    forall i, j | 0 <= i < j < |r| ensures r[i].distributionDate >= r[j].distributionDate {
      assert DateKey()(r[i]) >= DateKey()(r[j]);
    }
  }

  /** `findAllUniqueRecipients`: every non-NULL recipient once, in ascending order. */
  function FindAllUniqueRecipients(xs: seq<Distribution>): (names: seq<string>)
    ensures StrictlyAscending(names)
    ensures forall n :: n in names <==> exists i :: 0 <= i < |xs| && xs[i].recipient == Some(n)
  {
    DistinctKeys(Lines(xs))
  }

  /** The record kept under `id`, if any (first match). */
  function Lookup(xs: seq<Distribution>, id: nat): (r: Option<Distribution>)
    ensures r.None? <==> forall i :: 0 <= i < |xs| ==> xs[i].id != Some(id)
    ensures r.Some? ==> r.value in xs && r.value.id == Some(id)
  {
    if xs == [] then None
    else if xs[0].id == Some(id) then Some(xs[0])
    else
      var r := Lookup(xs[1..], id);
      assert forall i :: 0 < i < |xs| ==> xs[i] == xs[1..][i - 1];
      r
  }

  /** No two stored rows share an id. */
  ghost predicate UniqueIds(xs: seq<Distribution>) {
    DistinctBy(xs, IdOf())
  }

  /** Deleting by an id that one row carries removes that row and keeps the others in order. */
  lemma DeleteRemovesOne(xs: seq<Distribution>, k: nat, id: nat)
    requires UniqueIds(xs) && k < |xs| && xs[k].id == Some(id)
    ensures Filter(xs, IdIsNot(id)) == xs[..k] + xs[k + 1..]
  {
    forall j | 0 <= j < |xs| && j != k ensures IdIsNot(id)(xs[j]) {
      if j < k { assert IdOf()(xs[j]) != IdOf()(xs[k]); }
      else { assert IdOf()(xs[k]) != IdOf()(xs[j]); }
    }
    FilterRemovesOne(xs, IdIsNot(id), k);
  }

  /** The distribution table. Ids come from an identity counter; `createdAt` is set on insert. */
  class Repository {
    var records: seq<Distribution>
    var nextId: nat

    ghost predicate Valid()
      reads this
    {
      && UniqueIds(records)
      && forall i :: 0 <= i < |records| ==>
           records[i].id.Some? && records[i].id.value < nextId && records[i].createdAt.Some?
    }

    constructor ()
      ensures Valid() && records == [] && nextId == 1
    {
      records := [];
      nextId := 1;
    }

    /** `save` of a new row: assigns the next id, stamps `createdAt` and appends the row. */
    method Save(x: Distribution, now: Timestamp) returns (saved: Distribution)
      requires Valid() && x.id.None?
      modifies this
      ensures Valid()
      ensures saved == x.(id := Some(old(nextId)), createdAt := Some(now))
      ensures records == old(records) + [saved]
      ensures nextId == old(nextId) + 1
    {
      saved := x.(id := Some(nextId), createdAt := Some(now));
      records := records + [saved];
      nextId := nextId + 1;
    }

    /** `existsById` */
    function ExistsById(id: nat): (b: bool)
      reads this
      ensures b <==> exists i :: 0 <= i < |records| && records[i].id == Some(id)
    {
      Lookup(records, id).Some?
    }

    /** `findById` */
    function FindById(id: nat): (r: Option<Distribution>)
      reads this
      ensures r.None? <==> !ExistsById(id)
      ensures r.Some? ==> r.value in records && r.value.id == Some(id)
    {
      Lookup(records, id)
    }

    /** `deleteById`: removes the rows carrying `id`. */
    method DeleteById(id: nat)
      requires Valid()
      modifies this
      ensures Valid()
      ensures records == Filter(old(records), IdIsNot(id))
      ensures nextId == old(nextId)
    {
      FilterDistinctBy(records, IdIsNot(id), IdOf());
      var kept := Filter(records, IdIsNot(id));
      forall i | 0 <= i < |kept| ensures kept[i].id.Some? && kept[i].id.value < nextId && kept[i].createdAt.Some? {
        assert kept[i] in records;
      }
      records := kept;
    }

    /** `findAll`: the rows in insertion order. */
    function FindAll(): seq<Distribution>
      reads this
    {
      records
    }

    /** `count` */
    function Count(): nat
      reads this
    {
      |records|
    }
  }
}
