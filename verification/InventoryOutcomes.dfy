/** What the report and the pick list say of each line, told from the parts and the drawer
    (wirestudio/inventory/check.py:116-147, 254-305). */
module InventoryOutcomes {
  import opened Options
  import opened Selections
  import opened Grouping
  import opened Inventory

  /** What the drawer holds of a family and magnitude. */
  function OnHand(drawer: Drawer, family: string, canon: string): nat
  {
    match drawer.lookup(family, canon)
    case None => 0
    case Some(stock) => stock.quantity
  }

  /** A line of the report: a group without a family is not tracked; any other is there when the
      drawer has enough, partly there when it has some, taken for granted when it has none but
      the value is a common one, and else needed. */
  ghost predicate IsLine(drawer: Drawer, line: Line, family: string, canon: string, items: seq<Item>)
    requires items != []
  {
    && line.value == items[0].value && line.family == family && line.needed == |items|
    && |line.refs| == |items| && (forall i :: 0 <= i < |items| ==> line.refs[i] == items[i].ref)
    && line.onHand == (if family == "" then 0 else OnHand(drawer, family, canon))
    && line.location == (if family != "" && drawer.lookup(family, canon).Some?
                         then drawer.lookup(family, canon).value.location else "")
    && (line.status == Untracked <==> family == "")
    && (line.status == Have <==> family != "" && line.onHand >= line.needed)
    && (line.status == Partial <==> family != "" && 0 < line.onHand < line.needed)
    && (line.status == Assumed <==> family != "" && line.onHand == 0 && drawer.common(family, line.value))
    && (line.status == Need <==> family != "" && line.onHand == 0 && !drawer.common(family, line.value))
  }

  /** The report, line by line: line i is about exactly the items of its family and magnitude, in
      order, and their part keys. */
  lemma LinesExactly(drawer: Drawer, parts: seq<PlacedPart>, passives: seq<Item>, lines: seq<Line>, i: nat)
    requires Reports(drawer, ItemsOf(parts, passives), lines) && i < |lines|
    ensures
      var items := ItemsOf(parts, passives);
      var group := Rows(drawer, items)[i];
      && group.items != [] && group.items == Select(items, GroupKey(drawer), |items|, group.key)
      && IsLine(drawer, lines[i], group.key.0, group.key.1, group.items)
      && (forall x | x in group.items :: x.family == group.key.0 && drawer.canon(x.family, x.value) == group.key.1)
      && forall key :: key in lines[i].keys <==> key != "" && exists x :: x in group.items && x.key == key
  {
    hide Rows, ItemsOf, Select, LineOf, IsLine, GroupKey, Keys;
    var items := ItemsOf(parts, passives);
    var group := Rows(drawer, items)[i];
    GroupIsSelected(drawer, items, i);
    LineIsLine(drawer, group);
    forall key ensures key in lines[i].keys <==> key != "" && exists x :: x in group.items && x.key == key {
      KeysExactly(group.items, key);
    }
    forall x | x in group.items ensures x.family == group.key.0 && drawer.canon(x.family, x.value) == group.key.1 {
      SelectedAlike(drawer, items, group.key, x);
    }
  }

  lemma LineIsLine(drawer: Drawer, group: Row<(string, string), Item>)
    requires group.items != []
    ensures IsLine(drawer, LineOf(drawer, group), group.key.0, group.key.1, group.items)
    ensures LineOf(drawer, group).keys == Keys(group.items)
  {
  }

  lemma SelectedAlike(drawer: Drawer, items: seq<Item>, key: (string, string), x: Item)
    requires x in Select(items, GroupKey(drawer), |items|, key)
    ensures x.family == key.0 && drawer.canon(x.family, x.value) == key.1
  {
    hide Select;
    SelectedHaveKey(items, GroupKey(drawer), |items|, key, x);
  }

  lemma GroupIsSelected(drawer: Drawer, items: seq<Item>, i: nat)
    requires i < |Rows(drawer, items)|
    ensures Rows(drawer, items)[i].items == Select(items, GroupKey(drawer), |items|, Rows(drawer, items)[i].key)
  {
    hide GroupBy;
    GroupingPartitions(items, GroupKey(drawer), |items|);
    RowIsUnder(Rows(drawer, items), i);
  }

  /** The items of a report: the placed parts that are no symbol and have a value, in order, and
      the passives after them. */
  lemma ItemsExactly(parts: seq<PlacedPart>, passives: seq<Item>) returns (placed: seq<Item>, at: seq<nat>)
    ensures ItemsOf(parts, passives) == placed + passives
    ensures Gathers(EachPart(parts), placed, at)
  {
    hide ValuedParts, Chosen, Gathers;
    placed := ValuedParts(parts, |parts|);
    at := Chosen(Filled(EachPart(parts)), |parts|);
    PartsChosen(parts, |parts|);
    ChosenGathers(EachPart(parts), placed);
  }

  function EachPart(parts: seq<PlacedPart>): seq<Option<Item>>
  {
    seq(|parts|, i requires 0 <= i < |parts| =>
      if parts[i].partId == "" || parts[i].item.value == "" then None else Some(parts[i].item))
  }

  lemma {:induction false} PartsChosen(parts: seq<PlacedPart>, n: nat)
    requires n <= |parts|
    ensures
      var at, out := Chosen(Filled(EachPart(parts)), n), ValuedParts(parts, n);
      |at| == |out| && forall k :: 0 <= k < |at| ==> EachPart(parts)[at[k]] == Some(out[k])
  {
    if n > 0 {
      PartsChosen(parts, n - 1);
    }
  }

  // ------------------------------------------------------------ substitution

  /** The line is short, has the part key, and something is proposed for it. */
  predicate Wants(l: Short, key: string)
  {
    l.status in {Need, Partial} && key in l.keys && l.best.Some?
  }

  /** The last line that wants the key. */
  predicate LastWants(lines: seq<Short>, i: int, key: string)
  {
    0 <= i < |lines| && Wants(lines[i], key) && forall j :: i < j < |lines| ==> !Wants(lines[j], key)
  }

  lemma {:induction false} ProposalIsLast(lines: seq<Short>, n: nat, key: string)
    requires n <= |lines|
    ensures forall i :: LastWants(lines[..n], i, key) ==> LastProposal(lines, n, key) == lines[i].best
    ensures (forall i :: 0 <= i < n ==> !Wants(lines[i], key)) ==> LastProposal(lines, n, key) == None
  {
    if n > 0 {
      ProposalIsLast(lines, n - 1, key);
      if !Wants(lines[n - 1], key) {
        forall i | LastWants(lines[..n], i, key) ensures LastWants(lines[..n - 1], i, key) {
        }
      }
    }
  }

  /** After accepting, every part key holds the proposal of the last short line that wants it,
      and any other key what it held. */
  lemma AcceptedExactly(o: Overrides, lines: seq<Short>, key: string)
    ensures
      var after := ApplyAll(o, lines, |lines|).overrides;
      && (forall i :: LastWants(lines, i, key) ==> Lookup(after, key) == lines[i].best)
      && ((forall i :: 0 <= i < |lines| ==> !Wants(lines[i], key)) ==> Lookup(after, key) == Lookup(o, key))
  {
    hide ApplyAll, LastProposal;
    OverridesExactly(o, lines, |lines|, key);
    ProposalIsLast(lines, |lines|, key);
    assert lines[..|lines|] == lines;
  }

  // --------------------------------------------------------------- pick list

  function EachComponent(lines: seq<ComponentLine>): seq<Option<Pick>>
  {
    seq(|lines|, i requires 0 <= i < |lines| =>
      if lines[i].subcircuit then None
      else Some(Pick(lines[i].name, lines[i].needed, lines[i].status, lines[i].location)))
  }

  function EachLine(lines: seq<Line>): seq<Option<Pick>>
  {
    seq(|lines|, i requires 0 <= i < |lines| =>
      if lines[i].status == Untracked then None
      else Some(Pick(lines[i].value, lines[i].needed, lines[i].status, lines[i].location)))
  }

  lemma {:induction false} ComponentsChosen(lines: seq<ComponentLine>, n: nat)
    requires n <= |lines|
    ensures
      var at, out := Chosen(Filled(EachComponent(lines)), n), ComponentPicks(lines, n);
      |at| == |out| && forall k :: 0 <= k < |at| ==> EachComponent(lines)[at[k]] == Some(out[k])
  {
    if n > 0 {
      ComponentsChosen(lines, n - 1);
    }
  }

  lemma {:induction false} LinesChosen(lines: seq<Line>, n: nat)
    requires n <= |lines|
    ensures
      var at, out := Chosen(Filled(EachLine(lines)), n), PartPicks(lines, n);
      |at| == |out| && forall k :: 0 <= k < |at| ==> EachLine(lines)[at[k]] == Some(out[k])
  {
    if n > 0 {
      LinesChosen(lines, n - 1);
    }
  }

  /** What is pulled: the component lines no subcircuit covers and the tracked part lines, in
      order. */
  lemma PicksExactly(components: seq<ComponentLine>, lines: seq<Line>)
    returns (whole: seq<Pick>, discrete: seq<Pick>, fromWhole: seq<nat>, fromDiscrete: seq<nat>)
    ensures Picks(components, lines) == whole + discrete
    ensures Gathers(EachComponent(components), whole, fromWhole) && Gathers(EachLine(lines), discrete, fromDiscrete)
  {
    hide ComponentPicks, PartPicks, Chosen, Gathers;
    whole, discrete := ComponentPicks(components, |components|), PartPicks(lines, |lines|);
    fromWhole := Chosen(Filled(EachComponent(components)), |components|);
    fromDiscrete := Chosen(Filled(EachLine(lines)), |lines|);
    ComponentsChosen(components, |components|);
    ChosenGathers(EachComponent(components), whole);
    LinesChosen(lines, |lines|);
    ChosenGathers(EachLine(lines), discrete);
  }

  /** Where a line is pulled from: stock with a location there, other stock from where nobody
      wrote down, common values from the assumed ones, the rest from what is missing. */
  ghost predicate PulledFrom(spot: Spot, p: Pick)
  {
    match spot
    case AtLocation(l) => p.status in {Have, Partial} && p.location == l && l != ""
    case Unlocated => p.status in {Have, Partial} && p.location == ""
    case AssumedOnHand => p.status == Assumed
    case Missing => p.status in {Need, Untracked}
  }

  /** Each group of the pick list is one place and exactly the lines pulled from there, and every
      line has its group. */
  lemma PlacesExactly(components: seq<ComponentLine>, lines: seq<Line>)
    ensures
      var picks := Picks(components, lines);
      var groups := GroupBy(picks, PlaceOf, |picks|);
      && (forall i, p :: 0 <= i < |groups| ==> (p in groups[i].items <==> p in picks && PulledFrom(groups[i].key, p)))
      && (forall p | p in picks :: exists i :: 0 <= i < |groups| && p in groups[i].items)
  {
    hide Picks, GroupBy;
    var picks := Picks(components, lines);
    var groups := GroupBy(picks, PlaceOf, |picks|);
    GroupingPartitions(picks, PlaceOf, |picks|);
    assert picks[..|picks|] == picks;
    forall i, p | 0 <= i < |groups| ensures p in groups[i].items <==> p in picks && PulledFrom(groups[i].key, p) {
      RowIsUnder(groups, i);
      SelectedHaveKey(picks, PlaceOf, |picks|, groups[i].key, p);
    }
    forall p | p in picks ensures exists i :: 0 <= i < |groups| && p in groups[i].items {
      SelectedHaveKey(picks, PlaceOf, |picks|, PlaceOf(p), p);
      UnderHasRow(groups, PlaceOf(p));
      var i :| 0 <= i < |groups| && groups[i].key == PlaceOf(p);
      RowIsUnder(groups, i);
    }
  }
}
