/** `groups.setdefault(key, []).append(item)` in a loop: an insertion-ordered dict of lists. */
module Grouping {

  datatype Row<K, V> = Row(key: K, items: seq<V>)

  function Place<K(==), V>(rows: seq<Row<K, V>>, key: K, item: V): seq<Row<K, V>>
  {
    if rows == [] then [Row(key, [item])]
    else if rows[0].key == key then [Row(key, rows[0].items + [item])] + rows[1..]
    else [rows[0]] + Place(rows[1..], key, item)
  }

  function GroupBy<K(==), V>(items: seq<V>, keyOf: V -> K, n: nat): seq<Row<K, V>>
    requires n <= |items|
  {
    if n == 0 then [] else Place(GroupBy(items, keyOf, n - 1), keyOf(items[n - 1]), items[n - 1])
  }

  method GroupAll<K(==), V>(items: seq<V>, keyOf: V -> K) returns (rows: seq<Row<K, V>>)
    ensures rows == GroupBy(items, keyOf, |items|)
  {
    rows := [];
    for i := 0 to |items|
      invariant rows == GroupBy(items, keyOf, i)
    {
      rows := Place(rows, keyOf(items[i]), items[i]);
    }
  }

  /** The items with a key, in their order. */
  function Select<K(==), V>(items: seq<V>, keyOf: V -> K, n: nat, key: K): seq<V>
    requires n <= |items|
  {
    if n == 0 then []
    else Select(items, keyOf, n - 1, key) + if keyOf(items[n - 1]) == key then [items[n - 1]] else []
  }

  /** What the rows hold under a key, [] when there is no row. */
  function Under<K(==), V>(rows: seq<Row<K, V>>, key: K): seq<V>
  {
    if rows == [] then [] else if rows[0].key == key then rows[0].items else Under(rows[1..], key)
  }

  function Total<K, V>(rows: seq<Row<K, V>>): nat
  {
    if rows == [] then 0 else |rows[0].items| + Total(rows[1..])
  }

  ghost predicate WellFormed<K(!new), V(!new)>(rows: seq<Row<K, V>>)
  {
    && (forall i, j :: 0 <= i < j < |rows| ==> rows[i].key != rows[j].key)
    && (forall i :: 0 <= i < |rows| ==> rows[i].items != [])
  }

  lemma {:induction false} PlaceCounts<K(!new), V(!new)>(rows: seq<Row<K, V>>, key: K, item: V)
    ensures Total(Place(rows, key, item)) == Total(rows) + 1
  {
    var placed := Place(rows, key, item);
    if rows == [] {
      assert placed[1..] == [];
    } else if rows[0].key == key {
      assert placed[1..] == rows[1..];
    } else {
      PlaceCounts(rows[1..], key, item);
      assert placed[1..] == Place(rows[1..], key, item);
    }
  }

  lemma {:induction false} PlaceAddsUnder<K(!new), V(!new)>(rows: seq<Row<K, V>>, key: K, item: V, k: K)
    ensures Under(Place(rows, key, item), k) == Under(rows, k) + if k == key then [item] else []
  {
    var placed := Place(rows, key, item);
    if rows == [] {
      assert placed[1..] == [];
    } else if rows[0].key == key {
      assert placed[1..] == rows[1..];
    } else {
      PlaceAddsUnder(rows[1..], key, item, k);
      assert placed[1..] == Place(rows[1..], key, item);
    }
  }

  /** Row by row: an old row, an old row with the item added, or one new row at the end. */
  lemma {:induction false} PlaceKeeps<K(!new), V(!new)>(rows: seq<Row<K, V>>, key: K, item: V)
    ensures
      var placed := Place(rows, key, item);
      && |rows| <= |placed| <= |rows| + 1
      && (forall i :: 0 <= i < |rows| ==> placed[i].key == rows[i].key && |placed[i].items| >= |rows[i].items|)
      && (|placed| > |rows| ==>
            && placed[|rows|] == Row(key, [item])
            && forall i :: 0 <= i < |rows| ==> rows[i].key != key)
  {
    if rows != [] && rows[0].key != key {
      PlaceKeeps(rows[1..], key, item);
    }
  }

  lemma PlaceStaysWellFormed<K(!new), V(!new)>(rows: seq<Row<K, V>>, key: K, item: V)
    requires WellFormed(rows)
    ensures WellFormed(Place(rows, key, item))
  {
    hide Place;
    PlaceKeeps(rows, key, item);
  }

  lemma {:induction false} RowIsUnder<K(!new), V(!new)>(rows: seq<Row<K, V>>, i: nat)
    requires WellFormed(rows) && i < |rows|
    ensures rows[i].items == Under(rows, rows[i].key)
  {
    if i > 0 {
      assert rows[0].key != rows[i].key;
      RowIsUnder(rows[1..], i - 1);
    }
  }

  /** Grouping partitions the items: each key's row is exactly the items with that key, in
      order; no row is empty, no key has two; nothing is lost or doubled. */
  lemma {:induction false} GroupingPartitions<K(!new), V(!new)>(items: seq<V>, keyOf: V -> K, n: nat)
    requires n <= |items|
    ensures
      var rows := GroupBy(items, keyOf, n);
      && WellFormed(rows) && Total(rows) == n
      && (forall k :: Under(rows, k) == Select(items, keyOf, n, k))
  {
    hide WellFormed, Place, Under, Total;
    if n > 0 {
      GroupingPartitions(items, keyOf, n - 1);
      var rows, key, item := GroupBy(items, keyOf, n - 1), keyOf(items[n - 1]), items[n - 1];
      PlaceCounts(rows, key, item);
      PlaceStaysWellFormed(rows, key, item);
      forall k {
        PlaceAddsUnder(rows, key, item, k);
      }
    } else {
      NoRows<K, V>();
    }
  }

  lemma NoRows<K(!new), V(!new)>()
    ensures WellFormed<K, V>([]) && Total<K, V>([]) == 0 && forall k: K :: Under<K, V>([], k) == []
  {
  }

  lemma {:induction false} SelectedHaveKey<K(!new), V(!new)>(items: seq<V>, keyOf: V -> K, n: nat, key: K, v: V)
    requires n <= |items|
    ensures v in Select(items, keyOf, n, key) <==> v in items[..n] && keyOf(v) == key
  {
    if n > 0 {
      SelectedHaveKey(items, keyOf, n - 1, key, v);
      assert items[..n] == items[..n - 1] + [items[n - 1]];
    }
  }

  // ------------------------------------------------------------------ totals

  function Weigh<V>(items: seq<V>, weight: V -> nat): nat
  {
    if items == [] then 0 else Weigh(items[..|items| - 1], weight) + weight(items[|items| - 1])
  }

  function WeighRows<K, V>(rows: seq<Row<K, V>>, weight: V -> nat): nat
  {
    if rows == [] then 0 else Weigh(rows[0].items, weight) + WeighRows(rows[1..], weight)
  }

  lemma {:induction false} PlaceWeighs<K(!new), V(!new)>(rows: seq<Row<K, V>>, key: K, item: V, weight: V -> nat)
    ensures WeighRows(Place(rows, key, item), weight) == WeighRows(rows, weight) + weight(item)
  {
    if rows == [] {
      var row := Row(key, [item]);
      assert [item][..0] == [] && [row][1..] == [] && Place(rows, key, item) == [row];
      assert Weigh([item], weight) == Weigh([item][..0], weight) + weight(item);
      assert WeighRows([row], weight) == Weigh(row.items, weight) + WeighRows([row][1..], weight);
    } else if rows[0].key == key {
      var more := rows[0].items + [item];
      assert more[..|more| - 1] == rows[0].items;
      assert Place(rows, key, item)[1..] == rows[1..];
    } else {
      PlaceWeighs(rows[1..], key, item, weight);
      assert Place(rows, key, item)[1..] == Place(rows[1..], key, item);
    }
  }

  /** Whatever is counted, the rows add up to what the items add up to. */
  lemma {:induction false} GroupingConserves<K(!new), V(!new)>(items: seq<V>, keyOf: V -> K, n: nat, weight: V -> nat)
    requires n <= |items|
    ensures WeighRows(GroupBy(items, keyOf, n), weight) == Weigh(items[..n], weight)
  {
    if n > 0 {
      GroupingConserves(items, keyOf, n - 1, weight);
      PlaceWeighs(GroupBy(items, keyOf, n - 1), keyOf(items[n - 1]), items[n - 1], weight);
      assert items[..n][..n - 1] == items[..n - 1];
    }
  }
}
