/**
 * The aggregate queries shared by both record kinds. Donations and distributions are
 * both projected onto `Line`s (the grouping key is the donor name or the recipient);
 * each `SUM ... GROUP BY` query is a function over a sequence of lines.
 */
module Ledger {
  import opened Wrappers
  import opened Text
  import opened DonationTypes
  import opened Entities

  /** What an aggregate query reads of a row: its grouping key, its type and its quantity. */
  datatype Line = Line(key: Option<string>, donationType: DonationType, quantity: Cents)

  /** A `[DonationType, SUM(quantity)]` result row. */
  datatype TypeTotal = TypeTotal(donationType: DonationType, total: Cents)

  /** A `[name, DonationType, SUM(quantity)]` result row. */
  datatype KeyTypeTotal = KeyTypeTotal(key: string, donationType: DonationType, total: Cents)

  /** The types that occur among the lines. */
  function TypesIn(ls: seq<Line>): set<DonationType> {
    set l | l in ls :: l.donationType
  }

  /** Some line has key `k` and type `t`. */
  predicate HasKeyType(ls: seq<Line>, k: string, t: DonationType) {
    exists i :: 0 <= i < |ls| && ls[i].key == Some(k) && ls[i].donationType == t
  }

  /** Sum of the quantities of type `t` (zero when there are none). */
  function SumOfType(ls: seq<Line>, t: DonationType): (total: Cents)
    ensures t !in TypesIn(ls) ==> total == 0
  {
    if ls == [] then 0
    else
      var prefix, last := ls[..|ls| - 1], ls[|ls| - 1];
      assert TypesIn(prefix) <= TypesIn(ls) by { assert forall l :: l in prefix ==> l in ls; }
      SumOfType(prefix, t) + if last.donationType == t then last.quantity else 0
  }

  /** Sum of the quantities with key `k` and type `t` (zero when there are none). */
  function SumOfKeyType(ls: seq<Line>, k: string, t: DonationType): (total: Cents)
    ensures !HasKeyType(ls, k, t) ==> total == 0
  {
    if ls == [] then 0
    else
      var prefix, last := ls[..|ls| - 1], ls[|ls| - 1];
      assert HasKeyType(prefix, k, t) ==> HasKeyType(ls, k, t) by {
        if HasKeyType(prefix, k, t) {
          var i :| 0 <= i < |prefix| && prefix[i].key == Some(k) && prefix[i].donationType == t;
          assert ls[i] == prefix[i];
        }
      }
      SumOfKeyType(prefix, k, t) + if last.key == Some(k) && last.donationType == t then last.quantity else 0
  }

  /** Sum of the quantities with key `k` (zero when there are none). */
  function SumOfKey(ls: seq<Line>, k: string): (total: Cents)
    ensures k !in Keys(ls) ==> total == 0
  {
    if ls == [] then 0
    else
      var prefix, last := ls[..|ls| - 1], ls[|ls| - 1];
      SumOfKey(prefix, k) + if last.key == Some(k) then last.quantity else 0
  }

  /** The non-null keys of the lines, in line order, with repetitions. */
  function Keys(ls: seq<Line>): (ks: seq<string>)
    ensures forall k :: k in ks <==> exists i :: 0 <= i < |ls| && ls[i].key == Some(k)
  {
    if ls == [] then []
    else
      var prefix, last := ls[..|ls| - 1], ls[|ls| - 1];
      var ks := Keys(prefix) + if last.key.Some? then [last.key.value] else [];
      assert forall k :: (exists i :: 0 <= i < |ls| && ls[i].key == Some(k))
                     <==> (exists i :: 0 <= i < |prefix| && prefix[i].key == Some(k)) || last.key == Some(k) by {
        forall k | exists i :: 0 <= i < |ls| && ls[i].key == Some(k)
          ensures (exists i :: 0 <= i < |prefix| && prefix[i].key == Some(k)) || last.key == Some(k)
        {
          var i :| 0 <= i < |ls| && ls[i].key == Some(k);
          if i < |prefix| { assert prefix[i] == ls[i]; }
        }
        forall k | exists i :: 0 <= i < |prefix| && prefix[i].key == Some(k)
          ensures exists i :: 0 <= i < |ls| && ls[i].key == Some(k)
        {
          var i :| 0 <= i < |prefix| && prefix[i].key == Some(k);
          assert ls[i] == prefix[i];
        }
      }
      ks
  }

  lemma {:induction false} SumOfTypeAppend(a: seq<Line>, b: seq<Line>, t: DonationType)
    ensures SumOfType(a + b, t) == SumOfType(a, t) + SumOfType(b, t)
  {
    if b == [] {
      assert a + b == a;
    } else {
      assert (a + b)[..|a + b| - 1] == a + b[..|b| - 1];
      SumOfTypeAppend(a, b[..|b| - 1], t);
    }
  }

  // ---------------------------------------------------------------------------
  // SELECT donationType, SUM(quantity) ... GROUP BY donationType

  /** One row per type of `ts` that occurs, in the order of `ts`, with that type's sum. */
  function TypeTotals(ls: seq<Line>, ts: seq<DonationType>): seq<TypeTotal> {
    if ts == [] then []
    else
      var t := ts[|ts| - 1];
      TypeTotals(ls, ts[..|ts| - 1]) + if t in TypesIn(ls) then [TypeTotal(t, SumOfType(ls, t))] else []
  }

  /** The grouped sums per type; rows come in declaration order of the types. */
  function GroupByType(ls: seq<Line>): seq<TypeTotal> {
    TypeTotals(ls, AllTypes)
  }

  /** `SELECT SUM(quantity) ... WHERE donationType = t`: NULL (None) when no row has that type. */
  function TotalForType(ls: seq<Line>, t: DonationType): (r: Option<Cents>)
    ensures r.None? <==> t !in TypesIn(ls)
    ensures r.Some? ==> r.value == SumOfType(ls, t)
  {
    if t in TypesIn(ls) then Some(SumOfType(ls, t)) else None
  }

  /** `SELECT SUM(quantity) ... WHERE key = k`: NULL (None) when no row has that key. */
  function TotalForKey(ls: seq<Line>, k: string): (r: Option<Cents>)
    ensures r.None? <==> k !in Keys(ls)
    ensures r.Some? ==> r.value == SumOfKey(ls, k)
  {
    if k in Keys(ls) then Some(SumOfKey(ls, k)) else None
  }

  /** `HashMap.put` of each row in turn: a later row for the same type overwrites an earlier one. */
  function TypeMap(rows: seq<TypeTotal>): map<DonationType, Cents> {
    if rows == [] then map[]
    else
      var last := rows[|rows| - 1];
      TypeMap(rows[..|rows| - 1])[last.donationType := last.total]
  }

  /** `map.getOrDefault(t, BigDecimal.ZERO)` */
  function GetOrZero(m: map<DonationType, Cents>, t: DonationType): Cents {
    if t in m then m[t] else 0
  }

  /**
   * The rows of the grouped query, read into a map, map each type that occurs to its sum
   * and hold no other type.
   */
  lemma {:induction false} TypeTotalsMap(ls: seq<Line>, ts: seq<DonationType>)
    ensures forall u :: u in TypeMap(TypeTotals(ls, ts)) <==> u in ts && u in TypesIn(ls)
    ensures forall u :: u in TypeMap(TypeTotals(ls, ts)) ==> TypeMap(TypeTotals(ls, ts))[u] == SumOfType(ls, u)
  {
    if ts != [] {
      var prefix, t := ts[..|ts| - 1], ts[|ts| - 1];
      TypeTotalsMap(ls, prefix);
      var rows := TypeTotals(ls, prefix);
      assert forall u :: u in ts <==> u in prefix || u == t by { assert ts == prefix + [t]; }
      if t in TypesIn(ls) {
        var row := TypeTotal(t, SumOfType(ls, t));
        assert TypeTotals(ls, ts) == rows + [row];
        assert (rows + [row])[..|rows + [row]| - 1] == rows;
        assert TypeMap(TypeTotals(ls, ts)) == TypeMap(rows)[t := row.total];
      } else {
        assert TypeTotals(ls, ts) == rows + [] == rows;
      }
    }
  }

  /** Every row of the grouped query carries a type that occurs, with that type's sum. */
  lemma {:induction false} TypeTotalsRows(ls: seq<Line>, ts: seq<DonationType>)
    ensures forall r :: r in TypeTotals(ls, ts) <==>
              r.donationType in ts && r.donationType in TypesIn(ls) && r.total == SumOfType(ls, r.donationType)
  {
    if ts != [] {
      var prefix, t := ts[..|ts| - 1], ts[|ts| - 1];
      TypeTotalsRows(ls, prefix);
      assert forall u :: u in ts <==> u in prefix || u == t by { assert ts == prefix + [t]; }
    }
  }

  /** No two grouped rows carry the same type. */
  ghost predicate TotalsDistinct(rows: seq<TypeTotal>) {
    forall i, j :: 0 <= i < j < |rows| ==> rows[i].donationType != rows[j].donationType
  }

  /** The grouped query has at most one row per type when `ts` lists each type once. */
  lemma {:induction false} TypeTotalsDistinct(ls: seq<Line>, ts: seq<DonationType>)
    requires forall i, j :: 0 <= i < j < |ts| ==> ts[i] != ts[j]
    ensures TotalsDistinct(TypeTotals(ls, ts))
  {
    if ts != [] {
      var prefix, t := ts[..|ts| - 1], ts[|ts| - 1];
      TypeTotalsDistinct(ls, prefix);
      TypeTotalsRows(ls, prefix);
      var rows := TypeTotals(ls, prefix);
      assert t !in prefix by {
        forall i | 0 <= i < |prefix| ensures prefix[i] != t { assert prefix[i] == ts[i]; }
      }
      assert forall i :: 0 <= i < |rows| ==> rows[i].donationType != t by {
        forall i | 0 <= i < |rows| ensures rows[i].donationType != t { assert rows[i] in rows; }
      }
      var all := TypeTotals(ls, ts);
      assert all == rows + if t in TypesIn(ls) then [TypeTotal(t, SumOfType(ls, t))] else [];
      forall i, j | 0 <= i < j < |all| ensures all[i].donationType != all[j].donationType {
        assert all[i] == rows[i];
        if j < |rows| { assert all[j] == rows[j]; }
      }
    }
  }

  /**
   * The lookup the report code performs: reading the grouped rows into a map and taking
   * `getOrDefault(t, 0)` gives the per-type sum, which is also the single-type query with
   * NULL read as zero.
   */
  lemma GroupByTypeLookup(ls: seq<Line>, t: DonationType)
    ensures TypeMap(GroupByType(ls)).Keys == TypesIn(ls)
    ensures GetOrZero(TypeMap(GroupByType(ls)), t) == SumOfType(ls, t)
    ensures GetOrZero(TypeMap(GroupByType(ls)), t) == TotalForType(ls, t).GetOr(0)
  {
    AllTypesComplete();
    TypeTotalsMap(ls, AllTypes);
  }

  // ---------------------------------------------------------------------------
  // SELECT key, donationType, SUM(quantity) ... WHERE key IS NOT NULL
  //   GROUP BY key, donationType ORDER BY key

  /** `SELECT DISTINCT key ... WHERE key IS NOT NULL ORDER BY key` */
  function DistinctKeys(ls: seq<Line>): (ks: seq<string>)
    ensures StrictlyAscending(ks)
    ensures forall k :: k in ks <==> k in Keys(ls)
  {
    UniqueSorted(Keys(ls))
  }

  /** The rows for key `k`: one per type of `ts` that occurs with `k`, in the order of `ts`. */
  function KeyTypeTotals(ls: seq<Line>, k: string, ts: seq<DonationType>): seq<KeyTypeTotal> {
    if ts == [] then []
    else
      var t := ts[|ts| - 1];
      KeyTypeTotals(ls, k, ts[..|ts| - 1])
        + if HasKeyType(ls, k, t) then [KeyTypeTotal(k, t, SumOfKeyType(ls, k, t))] else []
  }

  /** The rows for each key of `ks` in turn. */
  function KeyBlocks(ls: seq<Line>, ks: seq<string>): seq<KeyTypeTotal> {
    if ks == [] then []
    else KeyBlocks(ls, ks[..|ks| - 1]) + KeyTypeTotals(ls, ks[|ks| - 1], AllTypes)
  }

  /** The grouped sums per (key, type), ordered by key; within a key, in declaration order of the types. */
  function GroupByKeyAndType(ls: seq<Line>): seq<KeyTypeTotal> {
    KeyBlocks(ls, DistinctKeys(ls))
  }

  lemma {:induction false} KeyTypeTotalsRows(ls: seq<Line>, k: string, ts: seq<DonationType>)
    ensures forall r :: r in KeyTypeTotals(ls, k, ts) <==>
              r.key == k && r.donationType in ts && HasKeyType(ls, k, r.donationType)
              && r.total == SumOfKeyType(ls, k, r.donationType)
  {
    if ts != [] {
      var prefix, t := ts[..|ts| - 1], ts[|ts| - 1];
      KeyTypeTotalsRows(ls, k, prefix);
      assert forall u :: u in ts <==> u in prefix || u == t by { assert ts == prefix + [t]; }
    }
  }

  /** No two rows carry the same type. */
  ghost predicate TypesDistinct(rows: seq<KeyTypeTotal>) {
    forall i, j :: 0 <= i < j < |rows| ==> rows[i].donationType != rows[j].donationType
  }

  /** Rows come in ascending key order (rows of one key may be adjacent). */
  ghost predicate KeysAscending(rows: seq<KeyTypeTotal>) {
    forall i, j :: 0 <= i < j < |rows| ==> rows[i].key == rows[j].key || LexLess(rows[i].key, rows[j].key)
  }

  /** Within one key, each type has at most one row, when `ts` lists each type once. */
  lemma {:induction false} KeyTypeTotalsDistinct(ls: seq<Line>, k: string, ts: seq<DonationType>)
    requires forall i, j :: 0 <= i < j < |ts| ==> ts[i] != ts[j]
    ensures TypesDistinct(KeyTypeTotals(ls, k, ts))
  {
    if ts != [] {
      var prefix, t := ts[..|ts| - 1], ts[|ts| - 1];
      KeyTypeTotalsDistinct(ls, k, prefix);
      KeyTypeTotalsRows(ls, k, prefix);
      var rows := KeyTypeTotals(ls, k, prefix);
      assert t !in prefix by {
        forall i | 0 <= i < |prefix| ensures prefix[i] != t { assert prefix[i] == ts[i]; }
      }
      assert forall i :: 0 <= i < |rows| ==> rows[i].donationType != t by {
        forall i | 0 <= i < |rows| ensures rows[i].donationType != t { assert rows[i] in rows; }
      }
      var all := KeyTypeTotals(ls, k, ts);
      assert all == rows + if HasKeyType(ls, k, t) then [KeyTypeTotal(k, t, SumOfKeyType(ls, k, t))] else [];
      forall i, j | 0 <= i < j < |all| ensures all[i].donationType != all[j].donationType {
        assert all[i] == rows[i];
        if j < |rows| { assert all[j] == rows[j]; }
      }
    }
  }

  /** A key that occurs has at least one row. */
  lemma KeyTypeTotalsNonEmpty(ls: seq<Line>, k: string)
    requires k in Keys(ls)
    ensures |KeyTypeTotals(ls, k, AllTypes)| > 0
  {
    var i :| 0 <= i < |ls| && ls[i].key == Some(k);
    var t := ls[i].donationType;
    AllTypesComplete();
    KeyTypeTotalsRows(ls, k, AllTypes);
    assert KeyTypeTotal(k, t, SumOfKeyType(ls, k, t)) in KeyTypeTotals(ls, k, AllTypes);
  }

  lemma {:induction false} KeyBlocksRows(ls: seq<Line>, ks: seq<string>)
    ensures forall r :: r in KeyBlocks(ls, ks) <==>
              r.key in ks && HasKeyType(ls, r.key, r.donationType) && r.total == SumOfKeyType(ls, r.key, r.donationType)
  {
    AllTypesComplete();
    if ks != [] {
      var prefix, k := ks[..|ks| - 1], ks[|ks| - 1];
      KeyBlocksRows(ls, prefix);
      KeyTypeTotalsRows(ls, k, AllTypes);
      assert forall u :: u in ks <==> u in prefix || u == k by { assert ks == prefix + [k]; }
    }
  }

  /** Rows in key order followed by rows of one key above all of theirs are still in key order. */
  lemma AppendKeyBlock(a: seq<KeyTypeTotal>, b: seq<KeyTypeTotal>, k: string)
    requires KeysAscending(a)
    requires forall r :: r in a ==> LexLess(r.key, k)
    requires forall r :: r in b ==> r.key == k
    ensures KeysAscending(a + b)
  {
    var rows := a + b;
    forall i, j | 0 <= i < j < |rows|
      ensures rows[i].key == rows[j].key || LexLess(rows[i].key, rows[j].key)
    {
      if j >= |a| {
        assert rows[j] == b[j - |a|] && b[j - |a|] in b;
        if i < |a| {
          assert rows[i] == a[i] && a[i] in a;
        } else {
          assert rows[i] == b[i - |a|] && b[i - |a|] in b;
        }
      } else {
        assert rows[i] == a[i] && rows[j] == a[j];
      }
    }
  }

  /** Rows of the key blocks come in key order when the keys do. */
  lemma {:induction false} KeyBlocksOrdered(ls: seq<Line>, ks: seq<string>)
    requires StrictlyAscending(ks)
    ensures KeysAscending(KeyBlocks(ls, ks))
  {
    if ks != [] {
      var prefix, k := ks[..|ks| - 1], ks[|ks| - 1];
      assert StrictlyAscending(prefix);
      KeyBlocksOrdered(ls, prefix);
      KeyBlocksRows(ls, prefix);
      KeyTypeTotalsRows(ls, k, AllTypes);
      var a, b := KeyBlocks(ls, prefix), KeyTypeTotals(ls, k, AllTypes);
      forall r | r in a ensures LexLess(r.key, k) {
        var m :| 0 <= m < |prefix| && prefix[m] == r.key;
        assert ks[m] == prefix[m] && ks[|ks| - 1] == k;
      }
      AppendKeyBlock(a, b, k);
    }
  }

  /** No two rows share both their key and their type. */
  ghost predicate GroupsDistinct(rows: seq<KeyTypeTotal>) {
    forall i, j :: 0 <= i < j < |rows| ==> rows[i].key != rows[j].key || rows[i].donationType != rows[j].donationType
  }

  /** Every row for key `k` carries `k`. */
  lemma {:induction false} KeyTypeTotalsKey(ls: seq<Line>, k: string, ts: seq<DonationType>)
    ensures forall r :: r in KeyTypeTotals(ls, k, ts) ==> r.key == k
  {
    if ts != [] {
      KeyTypeTotalsKey(ls, k, ts[..|ts| - 1]);
    }
  }

  /** Every row of the key blocks carries one of the keys. */
  lemma {:induction false} KeyBlocksKeys(ls: seq<Line>, ks: seq<string>)
    ensures forall r :: r in KeyBlocks(ls, ks) ==> r.key in ks
  {
    if ks != [] {
      var prefix, k := ks[..|ks| - 1], ks[|ks| - 1];
      KeyBlocksKeys(ls, prefix);
      KeyTypeTotalsKey(ls, k, AllTypes);
      assert forall u :: u in prefix ==> u in ks;
    }
  }

  /** Distinct groups followed by one key's rows, distinct by type and under a new key, stay distinct. */
  lemma AppendKeyGroup(a: seq<KeyTypeTotal>, b: seq<KeyTypeTotal>, k: string)
    requires GroupsDistinct(a) && TypesDistinct(b)
    requires forall r :: r in a ==> r.key != k
    requires forall r :: r in b ==> r.key == k
    ensures GroupsDistinct(a + b)
  {
    var rows := a + b;
    forall i, j | 0 <= i < j < |rows|
      ensures rows[i].key != rows[j].key || rows[i].donationType != rows[j].donationType
    {
      if j < |a| {
        assert rows[i] == a[i] && rows[j] == a[j];
      } else if i < |a| {
        assert rows[i] == a[i] && a[i] in a;
        assert rows[j] == b[j - |a|] && b[j - |a|] in b;
      } else {
        assert rows[i] == b[i - |a|] && rows[j] == b[j - |a|];
      }
    }
  }

  /** The key blocks hold at most one row per (key, type) pair when the keys are strictly ascending. */
  lemma {:induction false} KeyBlocksDistinct(ls: seq<Line>, ks: seq<string>)
    requires StrictlyAscending(ks)
    ensures GroupsDistinct(KeyBlocks(ls, ks))
  {
    if ks != [] {
      var prefix, k := ks[..|ks| - 1], ks[|ks| - 1];
      assert StrictlyAscending(prefix);
      KeyBlocksDistinct(ls, prefix);
      KeyBlocksKeys(ls, prefix);
      AllTypesComplete();
      KeyTypeTotalsDistinct(ls, k, AllTypes);
      KeyTypeTotalsKey(ls, k, AllTypes);
      var a := KeyBlocks(ls, prefix);
      forall r | r in a ensures r.key != k {
        var m :| 0 <= m < |prefix| && prefix[m] == r.key;
        assert ks[m] == prefix[m] && ks[|ks| - 1] == k;
        LexLessIrreflexive(k);
      }
      AppendKeyGroup(a, KeyTypeTotals(ls, k, AllTypes), k);
    }
  }

  /**
   * The `GROUP BY key, type ORDER BY key` query: exactly one row per (key, type) pair that
   * occurs, carrying that pair's sum, in ascending key order.
   */
  lemma GroupByKeyAndTypeSpec(ls: seq<Line>)
    ensures var rows := GroupByKeyAndType(ls);
      && (forall r :: r in rows <==> HasKeyType(ls, r.key, r.donationType) && r.total == SumOfKeyType(ls, r.key, r.donationType))
      && KeysAscending(rows)
      && GroupsDistinct(rows)
  {
    var ks := DistinctKeys(ls);
    KeyBlocksRows(ls, ks);
    KeyBlocksOrdered(ls, ks);
    KeyBlocksDistinct(ls, ks);
    forall r: KeyTypeTotal | HasKeyType(ls, r.key, r.donationType) ensures r.key in ks {
      var i :| 0 <= i < |ls| && ls[i].key == Some(r.key) && ls[i].donationType == r.donationType;
    }
  }
}
