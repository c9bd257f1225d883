/** The parts report, the pick list and substitution (wirestudio/inventory/check.py:116-147,
    234-305, 499-523). Value normalisation, the drawer's lookup and the list of common values
    are parameters. */
module Inventory {
  import opened Options
  import opened Grouping

  /** One thing the board carries: a placed subcircuit part or a design passive. */
  datatype Item = Item(family: string, value: string, ref: string, key: string)

  /** A placed part; `partId` is empty for a component's own symbol. */
  datatype PlacedPart = PlacedPart(partId: string, item: Item)

  datatype Stock = Stock(quantity: nat, location: string)

  datatype Drawer = Drawer(
    canon: (string, string) -> string,
    lookup: (string, string) -> Option<Stock>,
    common: (string, string) -> bool)

  datatype Status = Have | Partial | Assumed | Need | Untracked

  datatype Line = Line(
    value: string,
    family: string,
    refs: seq<string>,
    needed: nat,
    onHand: nat,
    status: Status,
    location: string,
    keys: seq<string>)

  // ------------------------------------------------------------ parts report

  /** The items of the first n placed parts: symbols and unvalued parts are skipped. */
  function ValuedParts(parts: seq<PlacedPart>, n: nat): seq<Item>
    requires n <= |parts|
  {
    if n == 0 then []
    else
      ValuedParts(parts, n - 1)
      + if parts[n - 1].partId != "" && parts[n - 1].item.value != "" then [parts[n - 1].item] else []
  }

  function GroupKey(drawer: Drawer): Item -> (string, string)
  {
    (i: Item) => (i.family, drawer.canon(i.family, i.value))
  }

  function Refs(items: seq<Item>): seq<string>
  {
    seq(|items|, i requires 0 <= i < |items| => items[i].ref)
  }

  /** The part keys of a group, passives having none. */
  function Keys(items: seq<Item>): seq<string>
  {
    if items == [] then []
    else Keys(items[..|items| - 1]) + if items[|items| - 1].key != "" then [items[|items| - 1].key] else []
  }

  function StatusOf(drawer: Drawer, family: string, value: string, needed: nat, onHand: nat): Status
  {
    if onHand >= needed then Have
    else if onHand > 0 then Partial
    else if drawer.common(family, value) then Assumed
    else Need
  }

  function LineOf(drawer: Drawer, row: Row<(string, string), Item>): Line
    requires row.items != []
  {
    var (family, canon) := row.key;
    var value, needed := row.items[0].value, |row.items|;
    if family == "" then Line(value, "", Refs(row.items), needed, 0, Untracked, "", Keys(row.items))
    else
      var stock := drawer.lookup(family, canon);
      var onHand := if stock.Some? then stock.value.quantity else 0;
      Line(value, family, Refs(row.items), needed, onHand, StatusOf(drawer, family, value, needed, onHand),
           if stock.Some? then stock.value.location else "", Keys(row.items))
  }

  function ItemsOf(parts: seq<PlacedPart>, passives: seq<Item>): seq<Item>
  {
    ValuedParts(parts, |parts|) + passives
  }

  function Rows(drawer: Drawer, items: seq<Item>): seq<Row<(string, string), Item>>
  {
    GroupBy(items, GroupKey(drawer), |items|)
  }

  /** The lines are the report of the items. */
  ghost predicate Reports(drawer: Drawer, items: seq<Item>, lines: seq<Line>)
  {
    var rows := Rows(drawer, items);
    |lines| == |rows| && forall i :: 0 <= i < |rows| ==> rows[i].items != [] && lines[i] == LineOf(drawer, rows[i])
  }

  method GatherParts(parts: seq<PlacedPart>) returns (items: seq<Item>)
    ensures items == ValuedParts(parts, |parts|)
  {
    items := [];
    for n := 0 to |parts|
      invariant items == ValuedParts(parts, n)
    {
      if parts[n].partId == "" { continue; }
      if parts[n].item.value == "" { continue; }
      items := items + [parts[n].item];
    }
  }

  /** `check_parts`, in the order the groups were met. */
  method CheckParts(drawer: Drawer, parts: seq<PlacedPart>, passives: seq<Item>) returns (lines: seq<Line>)
    ensures Reports(drawer, ItemsOf(parts, passives), lines)
  {
    var items := GatherParts(parts);
    items := items + passives;
    var rows := GroupAll(items, GroupKey(drawer));
    GroupingPartitions(items, GroupKey(drawer), |items|);
    lines := [];
    hide LineOf, GroupBy, ValuedParts;
    for i := 0 to |rows|
      invariant |lines| == i && forall k :: 0 <= k < i ==> lines[k] == LineOf(drawer, rows[k])
    {
      lines := lines + [LineOf(drawer, rows[i])];
    }
  }

  function Needed(drawer: Drawer, rows: seq<Row<(string, string), Item>>): nat
    requires forall r | r in rows :: r.items != []
  {
    if rows == [] then 0 else LineOf(drawer, rows[0]).needed + Needed(drawer, rows[1..])
  }

  lemma {:induction false} NeededIsTotal(drawer: Drawer, rows: seq<Row<(string, string), Item>>)
    requires forall r | r in rows :: r.items != []
    ensures Needed(drawer, rows) == Total(rows)
  {
    if rows != [] {
      NeededIsTotal(drawer, rows[1..]);
    }
  }

  /** Every valued part and every passive lands in exactly one line: a line's references are
      those of all the items of its family and value, in order, and `needed` adds up to the
      number of items. */
  lemma PartsAreConserved(drawer: Drawer, items: seq<Item>)
    ensures
      var rows := Rows(drawer, items);
      && (forall r | r in rows :: r.items != []) && Needed(drawer, rows) == |items|
      && (forall i, j :: 0 <= i < j < |rows| ==> rows[i].key != rows[j].key)
      && (forall i :: 0 <= i < |rows| ==>
            var line := LineOf(drawer, rows[i]);
            && line.refs == Refs(Select(items, GroupKey(drawer), |items|, rows[i].key))
            && line.needed == |line.refs|)
      && (forall k :: k in items ==> exists i :: 0 <= i < |rows| && rows[i].key == GroupKey(drawer)(k))
  {
    var rows := Rows(drawer, items);
    GroupingPartitions(items, GroupKey(drawer), |items|);
    forall r | r in rows ensures r.items != [] {
      var i :| 0 <= i < |rows| && rows[i] == r;
    }
    NeededIsTotal(drawer, rows);
    forall i | 0 <= i < |rows|
      ensures LineOf(drawer, rows[i]).refs == Refs(Select(items, GroupKey(drawer), |items|, rows[i].key))
    {
      RowIsUnder(rows, i);
    }
    forall k | k in items ensures exists i :: 0 <= i < |rows| && rows[i].key == GroupKey(drawer)(k) {
      SelectedHaveKey(items, GroupKey(drawer), |items|, GroupKey(drawer)(k), k);
      assert items[..|items|] == items;
      UnderHasRow(rows, GroupKey(drawer)(k));
    }
  }

  lemma {:induction false} UnderHasRow<K(!new), V(!new)>(rows: seq<Row<K, V>>, key: K)
    requires Under(rows, key) != []
    ensures exists i :: 0 <= i < |rows| && rows[i].key == key
  {
    if rows[0].key != key {
      UnderHasRow(rows[1..], key);
      var i :| 0 <= i < |rows[1..]| && rows[1..][i].key == key;
      assert rows[i + 1].key == key;
    }
  }

  lemma {:induction false} KeysExactly(items: seq<Item>, key: string)
    ensures key in Keys(items) <==> key != "" && exists i :: i in items && i.key == key
  {
    if items != [] {
      KeysExactly(items[..|items| - 1], key);
      assert items == items[..|items| - 1] + [items[|items| - 1]];
    }
  }

  /** Parts with keys of their own. */
  ghost predicate OwnKeys(items: seq<Item>)
  {
    forall a, b | a in items && b in items && a.key == b.key && a.key != "" :: a == b
  }

  /** Parts with keys of their own make lines with disjoint keys. */
  lemma LinesShareNoKey(drawer: Drawer, items: seq<Item>, i: nat, j: nat, key: string)
    requires OwnKeys(items)
    requires i < j < |Rows(drawer, items)|
    ensures Rows(drawer, items)[i].items != [] && Rows(drawer, items)[j].items != []
    ensures !(key in LineOf(drawer, Rows(drawer, items)[i]).keys && key in LineOf(drawer, Rows(drawer, items)[j]).keys)
  {
    var rows := Rows(drawer, items);
    GroupingPartitions(items, GroupKey(drawer), |items|);
    RowIsUnder(rows, i);
    RowIsUnder(rows, j);
    KeysExactly(rows[i].items, key);
    KeysExactly(rows[j].items, key);
    forall x ensures x in rows[i].items ==> x in items && GroupKey(drawer)(x) == rows[i].key {
      SelectedHaveKey(items, GroupKey(drawer), |items|, rows[i].key, x);
      assert items[..|items|] == items;
    }
    forall x ensures x in rows[j].items ==> x in items && GroupKey(drawer)(x) == rows[j].key {
      SelectedHaveKey(items, GroupKey(drawer), |items|, rows[j].key, x);
    }
  }

  // --------------------------------------------------------------- pick list

  datatype Spot = AtLocation(location: string) | Unlocated | AssumedOnHand | Missing

  /** A component line; `subcircuit` ones are covered by their parts. */
  datatype ComponentLine = ComponentLine(name: string, needed: nat, status: Status, location: string, subcircuit: bool)

  datatype Pick = Pick(name: string, needed: nat, status: Status, location: string)

  function PlaceOf(p: Pick): Spot
  {
    if p.status == Have || p.status == Partial then (if p.location != "" then AtLocation(p.location) else Unlocated)
    else if p.status == Assumed then AssumedOnHand
    else Missing
  }

  function ComponentPicks(lines: seq<ComponentLine>, n: nat): seq<Pick>
    requires n <= |lines|
  {
    if n == 0 then []
    else
      var l := lines[n - 1];
      ComponentPicks(lines, n - 1) + if l.subcircuit then [] else [Pick(l.name, l.needed, l.status, l.location)]
  }

  function PartPicks(lines: seq<Line>, n: nat): seq<Pick>
    requires n <= |lines|
  {
    if n == 0 then []
    else
      var l := lines[n - 1];
      PartPicks(lines, n - 1) + if l.status == Untracked then [] else [Pick(l.value, l.needed, l.status, l.location)]
  }

  function Picks(components: seq<ComponentLine>, parts: seq<Line>): seq<Pick>
  {
    ComponentPicks(components, |components|) + PartPicks(parts, |parts|)
  }

  /** `pick_list`, before its groups are sorted for display. */
  method PickList(components: seq<ComponentLine>, parts: seq<Line>) returns (groups: seq<Row<Spot, Pick>>)
    ensures groups == GroupBy(Picks(components, parts), PlaceOf, |Picks(components, parts)|)
  {
    var picks: seq<Pick> := [];
    for n := 0 to |components|
      invariant picks == ComponentPicks(components, n)
    {
      if components[n].subcircuit { continue; }
      picks := picks + [Pick(components[n].name, components[n].needed, components[n].status, components[n].location)];
    }
    ghost var head := picks;
    for n := 0 to |parts|
      invariant picks == head + PartPicks(parts, n)
    {
      if parts[n].status == Untracked { continue; }
      picks := picks + [Pick(parts[n].value, parts[n].needed, parts[n].status, parts[n].location)];
    }
    groups := GroupAll(picks, PlaceOf);
  }

  /** Each tracked line is pulled from exactly one place, and the places' counts and needs add
      up to the lines'. */
  lemma PickListConserves(components: seq<ComponentLine>, parts: seq<Line>)
    ensures
      var picks := Picks(components, parts);
      var groups := GroupBy(picks, PlaceOf, |picks|);
      && Total(groups) == |picks|
      && (forall i, j :: 0 <= i < j < |groups| ==> groups[i].key != groups[j].key)
      && (forall i :: 0 <= i < |groups| ==> groups[i].items == Select(picks, PlaceOf, |picks|, groups[i].key))
      && WeighRows(groups, (p: Pick) => p.needed) == Weigh(picks, (p: Pick) => p.needed)
  {
    var picks := Picks(components, parts);
    var groups := GroupBy(picks, PlaceOf, |picks|);
    GroupingPartitions(picks, PlaceOf, |picks|);
    forall i | 0 <= i < |groups| {
      RowIsUnder(groups, i);
    }
    GroupingConserves(picks, PlaceOf, |picks|, (p: Pick) => p.needed);
    assert picks[..|picks|] == picks;
  }

  // ------------------------------------------------------------ substitution

  /** A line and the best substitute proposed for it, if any. */
  datatype Short = Short(status: Status, keys: seq<string>, best: Option<string>)

  type Overrides = map<string, string>

  predicate Eligible(l: Short)
  {
    (l.status == Need || l.status == Partial) && l.keys != [] && l.best.Some?
  }

  /** The keys of the line not already overridden to the proposal. */
  function Stale(o: Overrides, keys: seq<string>, mpn: string): seq<string>
  {
    if keys == [] then []
    else
      Stale(o, keys[..|keys| - 1], mpn)
      + if keys[|keys| - 1] in o && o[keys[|keys| - 1]] == mpn then [] else [keys[|keys| - 1]]
  }

  function Override(o: Overrides, keys: seq<string>, mpn: string): Overrides
  {
    map k | k in o.Keys + (set x | x in keys) :: if k in keys then mpn else o[k]
  }

  datatype Applied = Applied(overrides: Overrides, entries: seq<(string, seq<string>)>)

  function ApplyLine(a: Applied, l: Short): Applied
  {
    if !Eligible(l) then a
    else
      var keys := Stale(a.overrides, l.keys, l.best.value);
      if keys == [] then a
      else Applied(Override(a.overrides, keys, l.best.value), a.entries + [(l.best.value, keys)])
  }

  function ApplyAll(o: Overrides, lines: seq<Short>, n: nat): Applied
    requires n <= |lines|
  {
    if n == 0 then Applied(o, []) else ApplyLine(ApplyAll(o, lines, n - 1), lines[n - 1])
  }

  lemma OverrideOneMore(o: Overrides, keys: seq<string>, key: string, mpn: string)
    ensures Override(o, keys, mpn)[key := mpn] == Override(o, keys + [key], mpn)
  {
    var one, all := Override(o, keys, mpn)[key := mpn], Override(o, keys + [key], mpn);
    assert one.Keys == all.Keys;
    forall k | k in one ensures one[k] == all[k] {
    }
  }

  method OverrideEach(o: Overrides, keys: seq<string>, mpn: string) returns (r: Overrides)
    ensures r == Override(o, keys, mpn)
  {
    r := o;
    assert Override(o, [], mpn) == o;
    hide Override;
    for i := 0 to |keys|
      invariant r == Override(o, keys[..i], mpn)
    {
      OverrideOneMore(o, keys[..i], keys[i], mpn);
      r := r[keys[i] := mpn];
      assert keys[..i + 1] == keys[..i] + [keys[i]];
    }
    assert keys[..|keys|] == keys;
  }

  /** `apply_substitutions`. */
  method ApplySubstitutions(o: Overrides, lines: seq<Short>) returns (r: Applied)
    ensures r == ApplyAll(o, lines, |lines|)
  {
    hide Override, Stale;
    var overrides, entries := o, [];
    for n := 0 to |lines|
      invariant Applied(overrides, entries) == ApplyAll(o, lines, n)
    {
      var l := lines[n];
      if !(l.status == Need || l.status == Partial) || l.keys == [] || l.best.None? { continue; }
      var keys := Stale(overrides, l.keys, l.best.value);
      if keys == [] { continue; }
      overrides := OverrideEach(overrides, keys, l.best.value);
      entries := entries + [(l.best.value, keys)];
    }
    return Applied(overrides, entries);
  }

  lemma {:induction false} StaleExactly(o: Overrides, keys: seq<string>, mpn: string)
    ensures forall k :: k in Stale(o, keys, mpn) <==> k in keys && !(k in o && o[k] == mpn)
    ensures Stale(o, keys, mpn) == [] <==> forall k | k in keys :: k in o && o[k] == mpn
  {
    if keys != [] {
      assert keys == keys[..|keys| - 1] + [keys[|keys| - 1]];
      StaleExactly(o, keys[..|keys| - 1], mpn);
    }
  }

  function Lookup(o: Overrides, key: string): Option<string>
  {
    if key in o then Some(o[key]) else None
  }

  predicate Contends(l: Short, key: string)
  {
    Eligible(l) && key in l.keys
  }

  /** The proposal of the last eligible line among the first n that holds the key. */
  function LastProposal(lines: seq<Short>, n: nat, key: string): Option<string>
    requires n <= |lines|
  {
    if n == 0 then None
    else if Contends(lines[n - 1], key) then lines[n - 1].best
    else LastProposal(lines, n - 1, key)
  }

  /** Exactly which overrides change, and to what: the keys of short lines with a proposal go
      to the last such line's, everything else stays. */
  lemma {:induction false} OverridesExactly(o: Overrides, lines: seq<Short>, n: nat, key: string)
    requires n <= |lines|
    ensures Lookup(ApplyAll(o, lines, n).overrides, key)
         == if LastProposal(lines, n, key).Some? then LastProposal(lines, n, key) else Lookup(o, key)
  {
    if n > 0 {
      OverridesExactly(o, lines, n - 1, key);
      var l, before := lines[n - 1], ApplyAll(o, lines, n - 1);
      if Eligible(l) {
        StaleExactly(before.overrides, l.keys, l.best.value);
      }
    }
  }

  /** Two short lines with proposals that share a part key propose the same part. */
  ghost predicate Consistent(lines: seq<Short>)
  {
    forall i, j, k | 0 <= i < j < |lines| && Contends(lines[i], k) && Contends(lines[j], k) ::
      lines[i].best == lines[j].best
  }

  /** Every key of the line already names the proposal. */
  predicate Satisfied(o: Overrides, l: Short)
  {
    Eligible(l) ==> forall k | k in l.keys :: k in o && o[k] == l.best.value
  }

  lemma {:induction false} QuietIff(o: Overrides, lines: seq<Short>, n: nat)
    requires n <= |lines|
    ensures ApplyAll(o, lines, n).entries == [] <==> forall i | 0 <= i < n :: Satisfied(o, lines[i])
    ensures ApplyAll(o, lines, n).entries == [] ==> ApplyAll(o, lines, n).overrides == o
  {
    if n > 0 {
      QuietIff(o, lines, n - 1);
      if Eligible(lines[n - 1]) {
        StaleExactly(ApplyAll(o, lines, n - 1).overrides, lines[n - 1].keys, lines[n - 1].best.value);
      }
    }
  }

  lemma {:induction false} LastProposalIsSomeLine(lines: seq<Short>, n: nat, key: string, i: nat)
    requires i < n <= |lines| && Contends(lines[i], key)
    ensures exists j :: i <= j < n && Contends(lines[j], key) && LastProposal(lines, n, key) == lines[j].best
  {
    if !Contends(lines[n - 1], key) {
      LastProposalIsSomeLine(lines, n - 1, key, i);
    }
  }

  /** Applying the same proposals again leaves every override as it is, always; it reports
      nothing exactly when no two of its lines disagree over a key. */
  lemma AgainIsQuietIff(o: Overrides, lines: seq<Short>)
    ensures
      var once := ApplyAll(o, lines, |lines|).overrides;
      var again := ApplyAll(once, lines, |lines|);
      && again.overrides == once
      && (again.entries == [] <==> Consistent(lines))
  {
    var once := ApplyAll(o, lines, |lines|).overrides;
    var again := ApplyAll(once, lines, |lines|);
    forall k ensures Lookup(again.overrides, k) == Lookup(once, k) {
      OverridesExactly(o, lines, |lines|, k);
      OverridesExactly(once, lines, |lines|, k);
    }
    SameLookups(again.overrides, once);
    QuietIff(once, lines, |lines|);
    if Consistent(lines) {
      forall i | 0 <= i < |lines| ensures Satisfied(once, lines[i]) {
        ConsistentSatisfies(o, lines, i);
      }
    }
    if again.entries == [] {
      SatisfiedAgree(o, lines);
    }
  }

  lemma SameLookups(a: Overrides, b: Overrides)
    requires forall k :: Lookup(a, k) == Lookup(b, k)
    ensures a == b
  {
    forall k ensures k in a <==> k in b {
      assert Lookup(a, k) == Lookup(b, k);
    }
    forall k | k in a ensures a[k] == b[k] {
      assert Lookup(a, k) == Lookup(b, k);
    }
  }

  lemma ConsistentSatisfies(o: Overrides, lines: seq<Short>, i: nat)
    requires Consistent(lines) && i < |lines|
    ensures Satisfied(ApplyAll(o, lines, |lines|).overrides, lines[i])
  {
    if Eligible(lines[i]) {
      forall k | k in lines[i].keys
        ensures Lookup(ApplyAll(o, lines, |lines|).overrides, k) == lines[i].best
      {
        OverridesExactly(o, lines, |lines|, k);
        LastProposalIsSomeLine(lines, |lines|, k, i);
      }
    }
  }

  lemma SatisfiedAgree(o: Overrides, lines: seq<Short>)
    requires forall i | 0 <= i < |lines| :: Satisfied(ApplyAll(o, lines, |lines|).overrides, lines[i])
    ensures Consistent(lines)
  {
    var once := ApplyAll(o, lines, |lines|).overrides;
    forall i, j, k | 0 <= i < j < |lines| && Contends(lines[i], k) && Contends(lines[j], k)
      ensures lines[i].best == lines[j].best
    {
      assert Satisfied(once, lines[i]) && Satisfied(once, lines[j]);
    }
  }

  // --------------------------------------------- accepting a report's proposals

  /** The report's lines with what is proposed for each. */
  function Proposals(lines: seq<Line>, best: Line -> Option<string>): seq<Short>
  {
    seq(|lines|, i requires 0 <= i < |lines| => Short(lines[i].status, lines[i].keys, best(lines[i])))
  }

  /** A report of parts with keys of their own never disagrees with itself over a key. */
  lemma ReportIsConsistent(drawer: Drawer, items: seq<Item>, lines: seq<Line>, best: Line -> Option<string>)
    requires OwnKeys(items) && Reports(drawer, items, lines)
    ensures Consistent(Proposals(lines, best))
  {
    hide Rows, LineOf, OwnKeys;
    var shorts := Proposals(lines, best);
    forall i, j, k | 0 <= i < j < |shorts| ensures !(Contends(shorts[i], k) && Contends(shorts[j], k)) {
      KeysApart(drawer, items, i, j, k);
    }
  }

  lemma KeysApart(drawer: Drawer, items: seq<Item>, i: nat, j: nat, key: string)
    requires OwnKeys(items) && i < j < |Rows(drawer, items)|
    ensures Rows(drawer, items)[i].items != [] && Rows(drawer, items)[j].items != []
    ensures !(key in LineOf(drawer, Rows(drawer, items)[i]).keys && key in LineOf(drawer, Rows(drawer, items)[j]).keys)
  {
    hide Rows, LineOf;
    LinesShareNoKey(drawer, items, i, j, key);
  }

  /** So accepting a report's proposals twice is accepting them once: the second time reports
      nothing and changes no override. */
  lemma AcceptingTwice(drawer: Drawer, items: seq<Item>, lines: seq<Line>, best: Line -> Option<string>, o: Overrides)
    requires OwnKeys(items) && Reports(drawer, items, lines)
    ensures
      var shorts := Proposals(lines, best);
      var once := ApplyAll(o, shorts, |shorts|).overrides;
      ApplyAll(once, shorts, |shorts|) == Applied(once, [])
  {
    hide Reports, OwnKeys, Consistent, ApplyAll;
    ReportIsConsistent(drawer, items, lines, best);
    AgainIsQuietIff(o, Proposals(lines, best));
  }
}
