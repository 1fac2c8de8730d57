/**
 * What the two reports and the availability rule mean, stated over the stored records:
 * stock per type, the inventory lines, and the donor grouping of the
 * `[donor, type, total]` rows.
 */
module ReportSpec {
  import opened Text
  import opened DonationTypes
  import opened Entities
  import opened Ledger
  import opened InventoryReportDto
  import opened DonorReportDto
  import DR = DonationRepository
  import XR = DistributionRepository

  // ---------------------------------------------------------------------------
  // Stock

  /** Stock of `t`: everything donated minus everything distributed; not clamped at zero. */
  function Stock(ds: seq<Donation>, xs: seq<Distribution>, t: DonationType): Cents {
    DR.DonatedOfType(ds, t) - XR.DistributedOfType(xs, t)
  }

  /** The types that occur in a donation or a distribution. */
  function TypesUsed(ds: seq<Donation>, xs: seq<Distribution>): set<DonationType> {
    TypesIn(DR.Lines(ds)) + TypesIn(XR.Lines(xs))
  }

  /** The inventory line of `t`. */
  function ItemFor(ds: seq<Donation>, xs: seq<Distribution>, t: DonationType): InventoryItem {
    InventoryItem(t, DR.DonatedOfType(ds, t), XR.DistributedOfType(xs, t), Stock(ds, xs, t))
  }

  /** No two items of the report are for the same type. */
  ghost predicate ItemTypesDistinct(items: seq<InventoryItem>) {
    forall i, j :: 0 <= i < j < |items| ==> items[i].donationType != items[j].donationType
  }

  /** The items' types are exactly `types`. */
  ghost predicate ItemsCover(items: seq<InventoryItem>, types: set<DonationType>) {
    forall t :: t in types <==> exists i :: 0 <= i < |items| && items[i].donationType == t
  }

  /** Every item is the inventory line of its type. */
  ghost predicate ItemsFaithful(ds: seq<Donation>, xs: seq<Distribution>, items: seq<InventoryItem>) {
    forall i :: 0 <= i < |items| ==> items[i] == ItemFor(ds, xs, items[i].donationType)
  }

  /** Adding the line of a type not yet covered keeps the items distinct, covering and faithful. */
  lemma AddItemKeepsReport(ds: seq<Donation>, xs: seq<Distribution>, items: seq<InventoryItem>,
                           types: set<DonationType>, t: DonationType)
    requires ItemTypesDistinct(items) && ItemsCover(items, types) && ItemsFaithful(ds, xs, items)
    requires t !in types
    ensures var items' := items + [ItemFor(ds, xs, t)];
      ItemTypesDistinct(items') && ItemsCover(items', types + {t}) && ItemsFaithful(ds, xs, items')
  {
    var items' := items + [ItemFor(ds, xs, t)];
    forall i | 0 <= i < |items| ensures items[i].donationType != t {
      assert items[i].donationType in types;
    }
    forall u ensures u in types + {t} <==> exists i :: 0 <= i < |items'| && items'[i].donationType == u {
      if u in types {
        var i :| 0 <= i < |items| && items[i].donationType == u;
        assert items'[i] == items[i];
      }
      if u == t {
        assert items'[|items|].donationType == t;
      }
      if exists i :: 0 <= i < |items'| && items'[i].donationType == u {
        var i :| 0 <= i < |items'| && items'[i].donationType == u;
        if i < |items| { assert items'[i] == items[i]; }
      }
    }
  }

  /** A type nobody donated or distributed has nothing in stock. */
  lemma UnusedTypeHasNoStock(ds: seq<Donation>, xs: seq<Distribution>, t: DonationType)
    requires t !in TypesUsed(ds, xs)
    ensures Stock(ds, xs, t) == 0 && ItemFor(ds, xs, t) == InventoryItem(t, 0, 0, 0)
  {
  }

  /** Recording nothing leaves no type in use. */
  lemma EmptyLedger(t: DonationType)
    ensures TypesUsed([], []) == {} && Stock([], [], t) == 0
  {
  }

  /** With nothing recorded, a report whose items cover exactly the types in use has no items. */
  lemma EmptyReport(items: seq<InventoryItem>)
    requires ItemsCover(items, TypesUsed([], []))
    ensures items == []
  {
    EmptyLedger(MONEY);
    assert |items| > 0 ==> items[0].donationType in TypesUsed([], []);
  }

  /**
   * Stock is not clamped: 100.00 of FOOD donated and 150.00 distributed (as after deleting
   * a donation that a distribution drew on) reports a FOOD line of -50.00.
   */
  lemma NegativeStockReported(d: Donation, x: Distribution)
    requires d.donationType == FOOD && d.quantity == 10000
    requires x.donationType == FOOD && x.quantity == 15000
    ensures ItemFor([d], [x], FOOD) == InventoryItem(FOOD, 10000, 15000, -5000)
  {
    StockAfterDonation([], [x], d, FOOD);
    StockAfterDistribution([], [], x, FOOD);
    assert [] + [d] == [d] && [] + [x] == [x];
    assert DR.Lines([d]) == [DR.LineOf(d)];
    assert XR.Lines([x]) == [XR.LineOf(x)];
  }

  /** A distribution of `q` units of `t` lowers the stock of `t` by `q` and leaves every other type's stock alone. */
  lemma {:induction false} StockAfterDistribution(ds: seq<Donation>, xs: seq<Distribution>, x: Distribution, u: DonationType)
    ensures Stock(ds, xs + [x], u) == Stock(ds, xs, u) - (if u == x.donationType then x.quantity else 0)
  {
    XR.LinesAppend(xs, [x]);
    SumOfTypeAppend(XR.Lines(xs), XR.Lines([x]), u);
    assert XR.Lines([x])[..0] == [];
  }

  /** A donation of `q` units of `t` raises the stock of `t` by `q` and leaves every other type's stock alone. */
  lemma {:induction false} StockAfterDonation(ds: seq<Donation>, xs: seq<Distribution>, d: Donation, u: DonationType)
    ensures Stock(ds + [d], xs, u) == Stock(ds, xs, u) + (if u == d.donationType then d.quantity else 0)
  {
    DR.LinesAppend(ds, [d]);
    SumOfTypeAppend(DR.Lines(ds), DR.Lines([d]), u);
    assert DR.Lines([d])[..0] == [];
  }

  // ---------------------------------------------------------------------------
  // Donor grouping of `[donor, type, total]` rows

  /** The donors of the rows, each once, in the order they first appear. */
  function DonorOrder(rows: seq<KeyTypeTotal>): (order: seq<string>)
    ensures forall k :: k in order <==> exists i :: 0 <= i < |rows| && rows[i].key == k
    ensures forall i, j :: 0 <= i < j < |order| ==> order[i] != order[j]
  {
    if rows == [] then []
    else
      var prefix, k := rows[..|rows| - 1], rows[|rows| - 1].key;
      var order := DonorOrder(prefix);
      assert forall i :: 0 <= i < |prefix| ==> prefix[i] == rows[i];
      if k in order then order else order + [k]
  }

  /** The `[type, total]` entry a row becomes. */
  function Entry(r: KeyTypeTotal): DonationByType {
    DonationByType(r.donationType, r.total)
  }

  /** The entries of donor `k`'s rows, in row order. */
  function DonationsOf(rows: seq<KeyTypeTotal>, k: string): (es: seq<DonationByType>)
    ensures forall e :: e in es <==> exists i :: 0 <= i < |rows| && rows[i].key == k && e == Entry(rows[i])
  {
    if rows == [] then []
    else
      var prefix, r := rows[..|rows| - 1], rows[|rows| - 1];
      assert forall i :: 0 <= i < |prefix| ==> prefix[i] == rows[i];
      DonationsOf(prefix, k) + if r.key == k then [Entry(r)] else []
  }

  /** The sum of donor `k`'s MONEY rows. */
  function MoneyOf(rows: seq<KeyTypeTotal>, k: string): Cents {
    if rows == [] then 0
    else
      var r := rows[|rows| - 1];
      MoneyOf(rows[..|rows| - 1], k) + if r.key == k && r.donationType == MONEY then r.total else 0
  }

  /** One more row: its donor joins the order if new, gets the row's entry, and its money if the row is MONEY. */
  lemma GroupStep(rows: seq<KeyTypeTotal>, r: KeyTypeTotal)
    ensures DonorOrder(rows + [r]) == if r.key in DonorOrder(rows) then DonorOrder(rows) else DonorOrder(rows) + [r.key]
    ensures forall k :: DonationsOf(rows + [r], k) == DonationsOf(rows, k) + if r.key == k then [Entry(r)] else []
    ensures forall k :: MoneyOf(rows + [r], k) == MoneyOf(rows, k) + if r.key == k && r.donationType == MONEY then r.total else 0
  {
    assert (rows + [r])[..|rows|] == rows;
  }

  /** No two entries of a donor are for the same type. */
  ghost predicate EntryTypesDistinct(es: seq<DonationByType>) {
    forall i, j :: 0 <= i < j < |es| ==> es[i].donationType != es[j].donationType
  }

  lemma {:induction false} DonationsOfAppend(a: seq<KeyTypeTotal>, b: seq<KeyTypeTotal>, k: string)
    ensures DonationsOf(a + b, k) == DonationsOf(a, k) + DonationsOf(b, k)
    ensures MoneyOf(a + b, k) == MoneyOf(a, k) + MoneyOf(b, k)
  {
    if b == [] {
      assert a + b == a;
    } else {
      var b' := b[..|b| - 1];
      assert (a + b)[..|a + b| - 1] == a + b';
      DonationsOfAppend(a, b', k);
    }
  }

  /** Rows of other donors contribute no entries and no money. */
  lemma {:induction false} OtherDonorRows(rows: seq<KeyTypeTotal>, k: string)
    requires forall i :: 0 <= i < |rows| ==> rows[i].key != k
    ensures DonationsOf(rows, k) == [] && MoneyOf(rows, k) == 0
  {
    if rows != [] {
      var prefix := rows[..|rows| - 1];
      assert forall i :: 0 <= i < |prefix| ==> prefix[i] == rows[i];
      OtherDonorRows(prefix, k);
    }
  }

  /** When every row is donor `k`'s, their entries are the rows' entries one for one. */
  lemma {:induction false} OwnRows(rows: seq<KeyTypeTotal>, k: string)
    requires forall i :: 0 <= i < |rows| ==> rows[i].key == k
    ensures |DonationsOf(rows, k)| == |rows|
    ensures forall i :: 0 <= i < |rows| ==> DonationsOf(rows, k)[i] == Entry(rows[i])
  {
    if rows != [] {
      var prefix := rows[..|rows| - 1];
      assert forall i :: 0 <= i < |prefix| ==> prefix[i] == rows[i];
      OwnRows(prefix, k);
    }
  }

  /** Donor `k`'s MONEY rows within its own block add up to what `k` gave in money. */
  lemma {:induction false} MoneyOfBlock(ls: seq<Line>, k: string, ts: seq<DonationType>)
    requires forall i, j :: 0 <= i < j < |ts| ==> ts[i] != ts[j]
    ensures MoneyOf(KeyTypeTotals(ls, k, ts), k) == if MONEY in ts then SumOfKeyType(ls, k, MONEY) else 0
  {
    if ts != [] {
      var prefix, t := ts[..|ts| - 1], ts[|ts| - 1];
      assert forall i, j :: 0 <= i < j < |prefix| ==> prefix[i] != prefix[j] by {
        forall i, j | 0 <= i < j < |prefix| ensures prefix[i] != prefix[j] {
          assert prefix[i] == ts[i] && prefix[j] == ts[j];
        }
      }
      MoneyOfBlock(ls, k, prefix);
      assert ts == prefix + [t];
      assert t !in prefix by {
        forall i | 0 <= i < |prefix| ensures prefix[i] != t { assert prefix[i] == ts[i]; }
      }
      assert MONEY in ts <==> MONEY in prefix || t == MONEY;
      var a := KeyTypeTotals(ls, k, prefix);
      if HasKeyType(ls, k, t) {
        var r := KeyTypeTotal(k, t, SumOfKeyType(ls, k, t));
        assert KeyTypeTotals(ls, k, ts) == a + [r];
        assert (a + [r])[..|a + [r]| - 1] == a;
        assert MoneyOf(a + [r], k) == MoneyOf(a, k) + if t == MONEY then r.total else 0;
      } else {
        assert KeyTypeTotals(ls, k, ts) == a + [] == a;
        assert t == MONEY ==> SumOfKeyType(ls, k, MONEY) == 0;
      }
    }
  }

  /** Donor `k`'s own block carries all the money `k` gave. */
  lemma OwnBlockMoney(ls: seq<Line>, k: string)
    ensures MoneyOf(KeyTypeTotals(ls, k, AllTypes), k) == SumOfKeyType(ls, k, MONEY)
  {
    AllTypesComplete();
    MoneyOfBlock(ls, k, AllTypes);
  }

  /** Another donor's block carries no entries and no money of donor `k`. */
  lemma OtherBlock(ls: seq<Line>, k': string, k: string)
    requires k' != k
    ensures DonationsOf(KeyTypeTotals(ls, k', AllTypes), k) == []
    ensures MoneyOf(KeyTypeTotals(ls, k', AllTypes), k) == 0
  {
    var block := KeyTypeTotals(ls, k', AllTypes);
    KeyTypeTotalsRows(ls, k', AllTypes);
    forall i | 0 <= i < |block| ensures block[i].key != k { assert block[i] in block; }
    OtherDonorRows(block, k);
  }

  /** Within the blocks of distinct donors `ks`, donor `k`'s entries are those of its own block. */
  lemma {:induction false} DonorBlocks(ls: seq<Line>, ks: seq<string>, k: string)
    requires forall i, j :: 0 <= i < j < |ks| ==> ks[i] != ks[j]
    ensures DonationsOf(KeyBlocks(ls, ks), k) == if k in ks then DonationsOf(KeyTypeTotals(ls, k, AllTypes), k) else []
  {
    if ks != [] {
      var prefix, k' := ks[..|ks| - 1], ks[|ks| - 1];
      assert ks == prefix + [k'];
      var block := KeyTypeTotals(ls, k', AllTypes);
      assert KeyBlocks(ls, ks) == KeyBlocks(ls, prefix) + block;
      DonorBlocks(ls, prefix, k);
      DonationsOfAppend(KeyBlocks(ls, prefix), block, k);
      if k == k' {
        assert k !in prefix by {
          forall i | 0 <= i < |prefix| ensures prefix[i] != k { assert prefix[i] == ks[i]; }
        }
        assert DonationsOf(KeyBlocks(ls, prefix), k) == [];
      } else {
        OtherBlock(ls, k', k);
        assert k in ks <==> k in prefix;
      }
    }
  }

  /** Within the blocks of distinct donors `ks`, donor `k`'s money is all the money `k` gave. */
  lemma {:induction false} DonorBlocksMoney(ls: seq<Line>, ks: seq<string>, k: string)
    requires forall i, j :: 0 <= i < j < |ks| ==> ks[i] != ks[j]
    ensures MoneyOf(KeyBlocks(ls, ks), k) == if k in ks then SumOfKeyType(ls, k, MONEY) else 0
  {
    if ks != [] {
      var prefix, k' := ks[..|ks| - 1], ks[|ks| - 1];
      assert ks == prefix + [k'];
      var block := KeyTypeTotals(ls, k', AllTypes);
      assert KeyBlocks(ls, ks) == KeyBlocks(ls, prefix) + block;
      DonorBlocksMoney(ls, prefix, k);
      DonationsOfAppend(KeyBlocks(ls, prefix), block, k);
      if k == k' {
        assert k !in prefix by {
          forall i | 0 <= i < |prefix| ensures prefix[i] != k { assert prefix[i] == ks[i]; }
        }
        OwnBlockMoney(ls, k);
      } else {
        OtherBlock(ls, k', k);
        assert k in ks <==> k in prefix;
      }
    }
  }

  /** Appending a non-empty block of one new donor's rows appends that donor to the order. */
  lemma {:induction false} DonorOrderAppendBlock(a: seq<KeyTypeTotal>, b: seq<KeyTypeTotal>, k: string)
    requires |b| > 0 && forall i :: 0 <= i < |b| ==> b[i].key == k
    requires k !in DonorOrder(a)
    ensures DonorOrder(a + b) == DonorOrder(a) + [k]
  {
    var b' := b[..|b| - 1];
    assert (a + b)[..|a + b| - 1] == a + b';
    if b' == [] {
      assert a + b' == a;
    } else {
      DonorOrderAppendBlock(a, b', k);
    }
  }

  lemma {:induction false} DonorOrderOfBlocks(ls: seq<Line>, ks: seq<string>)
    requires StrictlyAscending(ks)
    requires forall k :: k in ks ==> k in Keys(ls)
    ensures DonorOrder(KeyBlocks(ls, ks)) == ks
  {
    if ks != [] {
      var prefix, k := ks[..|ks| - 1], ks[|ks| - 1];
      assert StrictlyAscending(prefix);
      DonorOrderOfBlocks(ls, prefix);
      KeyTypeTotalsNonEmpty(ls, k);
      var block := KeyTypeTotals(ls, k, AllTypes);
      KeyTypeTotalsRows(ls, k, AllTypes);
      forall i | 0 <= i < |block| ensures block[i].key == k { assert block[i] in block; }
      assert k !in prefix by {
        forall i | 0 <= i < |prefix| ensures prefix[i] != k {
          assert LexLess(ks[i], ks[|ks| - 1]);
          LexLessIrreflexive(k);
        }
      }
      DonorOrderAppendBlock(KeyBlocks(ls, prefix), block, k);
    }
  }

  /**
   * What the donor grouping makes of the `GROUP BY donor, type ORDER BY donor` rows:
   * every donor once, in ascending name order; each donor's entries are exactly the
   * types they gave, one entry per type, carrying what they gave of it; and the money
   * subtotal is what they gave in money (zero when nothing).
   */
  lemma DonorGroupingSpec(ls: seq<Line>)
    ensures DonorOrder(GroupByKeyAndType(ls)) == DistinctKeys(ls)
    ensures forall k, e :: e in DonationsOf(GroupByKeyAndType(ls), k) <==>
              HasKeyType(ls, k, e.donationType) && e.quantity == SumOfKeyType(ls, k, e.donationType)
    ensures forall k :: EntryTypesDistinct(DonationsOf(GroupByKeyAndType(ls), k))
    ensures forall k :: MoneyOf(GroupByKeyAndType(ls), k) == SumOfKeyType(ls, k, MONEY)
  {
    DonorOrderOfBlocks(ls, DistinctKeys(ls));
    DonorEntries(ls);
    forall k ensures EntryTypesDistinct(DonationsOf(GroupByKeyAndType(ls), k)) &&
                     MoneyOf(GroupByKeyAndType(ls), k) == SumOfKeyType(ls, k, MONEY) {
      DonorEntriesDistinct(ls, k);
    }
  }

  /** The donors' entries are exactly the `(donor, type)` sums of the lines. */
  lemma DonorEntries(ls: seq<Line>)
    ensures forall k, e :: e in DonationsOf(GroupByKeyAndType(ls), k) <==>
              HasKeyType(ls, k, e.donationType) && e.quantity == SumOfKeyType(ls, k, e.donationType)
  {
    var rows := GroupByKeyAndType(ls);
    GroupByKeyAndTypeSpec(ls);
    forall k, e ensures e in DonationsOf(rows, k) <==>
        HasKeyType(ls, k, e.donationType) && e.quantity == SumOfKeyType(ls, k, e.donationType) {
      if HasKeyType(ls, k, e.donationType) && e.quantity == SumOfKeyType(ls, k, e.donationType) {
        var r := KeyTypeTotal(k, e.donationType, e.quantity);
        assert r in rows;
        var i :| 0 <= i < |rows| && rows[i] == r;
        assert rows[i].key == k && e == Entry(rows[i]);
      }
      if e in DonationsOf(rows, k) {
        var i :| 0 <= i < |rows| && rows[i].key == k && e == Entry(rows[i]);
        assert rows[i] in rows;
      }
    }
  }

  /** Each donor's entries name distinct types, and its money subtotal is what it gave in money. */
  lemma DonorEntriesDistinct(ls: seq<Line>, k: string)
    ensures EntryTypesDistinct(DonationsOf(GroupByKeyAndType(ls), k))
    ensures MoneyOf(GroupByKeyAndType(ls), k) == SumOfKeyType(ls, k, MONEY)
  {
    var ks := DistinctKeys(ls);
    assert forall i, j :: 0 <= i < j < |ks| ==> ks[i] != ks[j] by {
      forall i, j | 0 <= i < j < |ks| ensures ks[i] != ks[j] {
        assert LexLess(ks[i], ks[j]);
        LexLessIrreflexive(ks[i]);
      }
    }
    DonorBlocks(ls, ks, k);
    DonorBlocksMoney(ls, ks, k);
    if k in ks {
      var block := KeyTypeTotals(ls, k, AllTypes);
      KeyTypeTotalsRows(ls, k, AllTypes);
      forall i | 0 <= i < |block| ensures block[i].key == k { assert block[i] in block; }
      OwnRows(block, k);
      AllTypesComplete();
      KeyTypeTotalsDistinct(ls, k, AllTypes);
    } else {
      assert !HasKeyType(ls, k, MONEY);
    }
  }
}
