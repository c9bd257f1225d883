/** What a migration keeps, place by place: the steps change only what they are about
    (wirestudio/migrate.py:9-15, 60-69, 275-322). */
module MigratedContent {
  import opened Options
  import opened Text
  import opened BusIds
  import opened IdRepair
  import opened DocMigration

  /** The places of the fields nothing reads: three at the top, four in the `lorawan` block. */
  predicate IsUnread(path: seq<PathStep>)
  {
    path != [] &&
    (path[0] in {Key("created_at"), Key("updated_at"), Key("agent")}
     || (|path| > 1 && path[0] == Key("lorawan") && IsUnreadInBlock(path[1])))
  }

  predicate IsUnreadInBlock(step: PathStep)
  {
    step in {Key("chirpstack_application_id"), Key("device_profile_id"), Key("provisioning"), Key("dev_eui")}
  }

  /** A place below the document and below its `lorawan` block. */
  predicate IsBelow(path: seq<PathStep>)
  {
    path != [] && path != [Key("lorawan")]
  }

  /** Dropping the unread fields drops exactly those; every other place holds what it held. */
  lemma DropsExactly(doc: Object, path: seq<PathStep>)
    requires IsBelow(path)
    ensures Get(Obj(DropUnreadFields(doc)), path) == if IsUnread(path) then None else Get(Obj(doc), path)
  {
    if path[0].Key? {
      if path[0].name == "lorawan" {
        assert path == [Key("lorawan")] + path[1..];
        BlockDrops(doc, path[1..]);
      } else {
        OtherFieldDrops(doc, path[0].name);
      }
    }
  }

  lemma OtherFieldDrops(doc: Object, name: string)
    requires name != "lorawan"
    ensures
      var out := DropUnreadFields(doc);
      && (name in out <==> name in doc && name !in {"created_at", "updated_at", "agent"})
      && (name in out ==> out[name] == doc[name])
  {
  }

  lemma BlockDrops(doc: Object, rest: seq<PathStep>)
    requires rest != []
    ensures Get(Obj(DropUnreadFields(doc)), [Key("lorawan")] + rest)
         == if IsUnreadInBlock(rest[0]) then None else Get(Obj(doc), [Key("lorawan")] + rest)
  {
    var out, path := DropUnreadFields(doc), [Key("lorawan")] + rest;
    assert path[1..] == rest;
    assert "lorawan" !in UNREAD_TOP by {
      assert "lorawan"[0] == 'l';
    }
    assert "lorawan" in out <==> "lorawan" in doc;
    if "lorawan" in doc {
      assert Get(Obj(out), path) == Get(out["lorawan"], rest) && Get(Obj(doc), path) == Get(doc["lorawan"], rest);
    }
  }

  /** The step changes nothing at the place, whatever the document. */
  ghost predicate LeavesAlone(lower: Lower, path: seq<PathStep>)
  {
    forall doc: Object :: Get(Obj(lower(doc)), path) == Get(Obj(doc), path)
  }

  lemma VersionApart(doc: Object, version: Json, path: seq<PathStep>)
    requires path != [] && path[0] != Key("schema_version")
    ensures Get(Obj(doc["schema_version" := version]), path) == Get(Obj(doc), path)
  {
  }

  lemma StepKeeps(lower: Lower, position: nat, doc: Object, path: seq<PathStep>)
    requires position < |STEPS| && IsBelow(path) && path[0] != Key("schema_version") && LeavesAlone(lower, path)
    ensures Get(Obj(ApplyStep(lower, STEPS[position], doc)), path)
         == if position == 1 && IsUnread(path) then None else Get(Obj(doc), path)
  {
    hide DropUnreadFields, IsUnread, Get;
    DropsExactly(doc, path);
    assert "drop_unread_fields"[0] == 'd' && "lower_lorawan_sugar"[0] == 'l' && "retire_lorawan_sugar"[0] == 'r';
    var after := if position == 1 then DropUnreadFields(doc) else lower(doc);
    VersionApart(after, Str(STEPS[position].toVersion), path);
  }

  lemma {:induction false} ChainKeeps(lower: Lower, doc: Object, position: nat, path: seq<PathStep>)
    requires position <= |STEPS| && IsBelow(path) && path[0] != Key("schema_version") && LeavesAlone(lower, path)
    ensures Get(Obj(Chain(lower, doc, position)), path)
         == if position <= 1 && IsUnread(path) then None else Get(Obj(doc), path)
    decreases |STEPS| - position
  {
    hide ApplyStep, IsUnread, Get, LeavesAlone;
    if position < |STEPS| {
      StepKeeps(lower, position, doc, path);
      ChainKeeps(lower, ApplyStep(lower, STEPS[position], doc), position + 1, path);
    }
  }

  // ------------------------------------------------------------ whole migrations

  /** The two repairs' renames of a document the chain has brought up to date. */
  function FirstRenames(chained: Object): map<string, string>
  {
    ReservedRenames(chained)
  }

  function SecondRenames(names: set<string>, conflicts: Conflicts, chained: Object): map<string, string>
  {
    var unreserved := ApplyIdRenames(chained, FirstRenames(chained));
    IntegrationRenames(unreserved, ConflictsToFix(names, conflicts, unreserved))
  }

  /** What a string at the place becomes under both repairs. */
  function RepairedText(text: string, path: seq<PathStep>,
                        first: map<string, string>, second: map<string, string>): string
  {
    if IsIdPosition(path) || IsReferencePosition(path) then Renamed(second, Renamed(first, text)) else text
  }

  lemma RepairKeeps(names: set<string>, conflicts: Conflicts, chained: Object, path: seq<PathStep>)
    requires HasSections(chained) && IsInside(path)
    ensures
      var here, there := Get(Obj(chained), path), Get(Obj(Repair(names, conflicts, chained).0), path);
      && Mirrors(here, there)
      && (here.Some? && here.value.Str? ==> there == Some(Str(RepairedText(
            here.value.text, path, FirstRenames(chained), SecondRenames(names, conflicts, chained)))))
  {
    hide IntegrationRenames, ConflictsToFix, ReservedRenames, ApplyIdRenames, IsIdPosition, IsReferencePosition, Get;
    var first, second := FirstRenames(chained), SecondRenames(names, conflicts, chained);
    var unreserved := ApplyIdRenames(chained, first);
    RenameKeepsSections(chained, first);
    RenameMirrors(chained, first, path);
    RenameMirrors(unreserved, second, path);
    RenameAt(chained, first, path);
    RenameAt(unreserved, second, path);
  }

  /** A migrated document holds at every place what it held before, the unread fields of a
      document of version 0.1 or 0.2 and the version itself apart: nothing appears, goes or
      changes its shape, and strings change only where ids and references do, by the repairs'
      renames. This is for places the lowering leaves alone. */
  lemma MigrationKeeps(lower: Lower, names: set<string>, conflicts: Conflicts, raw: Json, path: seq<PathStep>)
    requires Migratable(raw) && LeavesAlone(lower, path)
    requires IsInside(path) && IsBelow(path) && path[0] != Key("schema_version")
    requires HasSections(Chain(lower, raw.fields, Position(raw.fields["schema_version"].text)))
    ensures Migrate(lower, names, conflicts, raw).Ok?
    ensures
      var version := raw.fields["schema_version"].text;
      var chained := Chain(lower, raw.fields, Position(version));
      var there := Get(Obj(Migrate(lower, names, conflicts, raw).migration.document), path);
      var here := if IsUnread(path) && version in {"0.1", "0.2"} then None else Get(raw, path);
      && Mirrors(here, there)
      && (here.Some? && here.value.Str? ==> there == Some(Str(RepairedText(
            here.value.text, path, FirstRenames(chained), SecondRenames(names, conflicts, chained)))))
  {
    hide Chain, Repair, IsUnread, LeavesAlone, FirstRenames, SecondRenames, RepairedText, Mirrors, Get;
    var version := raw.fields["schema_version"].text;
    var chained := Chain(lower, raw.fields, Position(version));
    ChainKeeps(lower, raw.fields, Position(version), path);
    RepairKeeps(names, conflicts, chained, path);
  }

  // ---------------------------------------------------------------- new names

  /** A bus is named for its type, with an underscore where ESPHome has a peripheral of that
      name, and the first number no id in use has. */
  ghost predicate NamedAsBus(newId: string, node: Json, taken: set<string>)
  {
    exists n: nat :: newId == GeneratedBusId(KindOf(node), n)
      && forall m: nat :: m < n ==> GeneratedBusId(KindOf(node), m) in taken
  }

  /** The type is what the entry's `type` says, `bus` when it says nothing. */
  lemma KindExactly(node: Json)
    ensures forall t :: t != "" && Get(node, [Key("type")]) == Some(Str(t)) ==> KindOf(node) == t
    ensures (forall t :: t != "" ==> Get(node, [Key("type")]) != Some(Str(t))) ==> KindOf(node) == "bus"
  {
    assert [Key("type")][1..] == [];
    if node.Obj? && "type" in node.fields {
      assert Get(node, [Key("type")]) == Some(node.fields["type"]);
    }
  }

  /** A component keeps its id, with the first free number from 1 after it. */
  ghost predicate NamedAfter(newId: string, id: string, taken: set<string>)
  {
    exists n: nat :: 1 <= n && newId == Numbered(id + "_", n)
      && forall m: nat :: 1 <= m < n ==> Numbered(id + "_", m) in taken
  }

  ghost predicate NamedBy(naming: Naming, newId: string, node: Json, id: string, taken: set<string>)
  {
    match naming
    case AsBus => NamedAsBus(newId, node, taken)
    case WithSuffix => NamedAfter(newId, id, taken)
  }

  lemma NewIdIsNamed(naming: Naming, node: Json, id: string, taken: set<string>)
    ensures NamedBy(naming, NewId(naming, node, id, taken), node, id, taken)
  {
    match naming
    case AsBus =>
      assert IsFirstFree(BusPrefix(KindOf(node)), taken, 0, FirstFree(BusPrefix(KindOf(node)), taken, 0));
    case WithSuffix =>
      assert IsFirstFree(id + "_", taken, 1, FirstFree(id + "_", taken, 1));
  }

  lemma NamedStill(naming: Naming, newId: string, node: Json, id: string, taken: set<string>, more: set<string>)
    requires NamedBy(naming, newId, node, id, taken) && taken <= more
    ensures NamedBy(naming, newId, node, id, more)
  {
  }

  /** Entry i holds the id, and the plan's name for the id is made for that entry. */
  ghost predicate NamedFor(naming: Naming, items: seq<Json>, i: int, id: string, plan: Plan)
  {
    && 0 <= i < |items| && IdOf(items[i]) == Some(id)
    && id in plan.renames && NamedBy(naming, plan.renames[id], items[i], id, plan.taken)
  }

  lemma {:induction false} PlanNames(naming: Naming, wanted: set<string>, items: seq<Json>, n: nat, plan: Plan,
                                     id: string)
    requires n <= |items| && id in IdsOf(items[..n]) * wanted
    ensures exists i :: i < n && NamedFor(naming, items, i, id, PlanAfter(naming, wanted, items, n, plan))
  {
    hide NamedBy, NewId;
    var before, after := PlanAfter(naming, wanted, items, n - 1, plan), PlanAfter(naming, wanted, items, n, plan);
    if IdOf(items[n - 1]) == Some(id) {
      NewIdIsNamed(naming, items[n - 1], id, before.taken);
      NamedStill(naming, after.renames[id], items[n - 1], id, before.taken, after.taken);
      assert NamedFor(naming, items, n - 1, id, after);
    } else {
      IdEarlier(items, n, id);
      PlanNames(naming, wanted, items, n - 1, plan, id);
      var i :| i < n - 1 && NamedFor(naming, items, i, id, before);
      assert after.renames[id] == before.renames[id] && before.taken <= after.taken;
      NamedStill(naming, before.renames[id], items[i], id, before.taken, after.taken);
      assert NamedFor(naming, items, i, id, after);
    }
  }

  lemma IdEarlier(items: seq<Json>, n: nat, id: string)
    requires 0 < n <= |items| && id in IdsOf(items[..n]) && IdOf(items[n - 1]) != Some(id)
    ensures id in IdsOf(items[..n - 1])
  {
    var i :| 0 <= i < |items[..n]| && IdOf(items[..n][i]) == Some(id);
    assert items[..n - 1][i] == items[..n][i];
  }

  /** What the first repair's loop has in use at its end. */
  function FirstTaken(doc: Object): set<string>
  {
    var buses := ItemsOf(doc, "buses");
    PlanAfter(AsBus, RESERVED_BUS_IDS, buses, |buses|, Plan(map[], BusIdsOf(doc))).taken
  }

  /** The first repair renames exactly the buses with a reserved id, each for its type, by the
      first number that is not in use; in use are the buses' ids and, where no two buses share
      an id, the new ids. */
  lemma FirstRenamesExactly(doc: Object, id: string)
    ensures id in FirstRenames(doc) <==> id in BusIdsOf(doc) && id in {"uart0", "uart1", "uart2", "spi0", "spi1"}
    ensures id in FirstRenames(doc) ==>
      exists i: nat :: Names(doc, "buses", i, id)
        && NamedAsBus(FirstRenames(doc)[id], ItemsOf(doc, "buses")[i], FirstTaken(doc))
    ensures OwnIds(ItemsOf(doc, "buses")) ==> FirstTaken(doc) == BusIdsOf(doc) + FirstRenames(doc).Values
  {
    var buses, start := ItemsOf(doc, "buses"), Plan(map[], BusIdsOf(doc));
    ReservedPlan(doc);
    if id in FirstRenames(doc) {
      assert buses[..|buses|] == buses;
      PlanNames(AsBus, RESERVED_BUS_IDS, buses, |buses|, start, id);
      var i :| i < |buses| && NamedFor(AsBus, buses, i, id, PlanAfter(AsBus, RESERVED_BUS_IDS, buses, |buses|, start));
      assert Names(doc, "buses", i, id);
    }
    if OwnIds(buses) {
      TakenExactly(AsBus, RESERVED_BUS_IDS, buses, |buses|, start);
    }
  }

  /** No two entries have the same id. */
  ghost predicate OwnIds(items: seq<Json>)
  {
    forall i, j :: 0 <= i < j < |items| && IdOf(items[i]).Some? ==> IdOf(items[i]) != IdOf(items[j])
  }

  lemma {:induction false} TakenExactly(naming: Naming, wanted: set<string>, items: seq<Json>, n: nat, plan: Plan)
    requires n <= |items| && OwnIds(items) && plan.renames == map[]
    ensures
      var r := PlanAfter(naming, wanted, items, n, plan);
      && r.taken == plan.taken + r.renames.Values
      && forall id | id in r.renames :: exists i :: 0 <= i < n && IdOf(items[i]) == Some(id)
  {
    hide NewId;
    if n > 0 {
      TakenExactly(naming, wanted, items, n - 1, plan);
      var before, r := PlanAfter(naming, wanted, items, n - 1, plan), PlanAfter(naming, wanted, items, n, plan);
      if before != r {
        var id := IdOf(items[n - 1]).value;
        assert id !in before.renames;
        assert r.renames.Values == before.renames.Values + {r.renames[id]} by {
          forall x | x in before.renames ensures r.renames[x] == before.renames[x] {
          }
        }
      }
    }
  }

  /** The second repair's loop over the components, and over the buses after them. */
  function ComponentPlan(doc: Object, fix: set<string>): Plan
  {
    var components := ItemsOf(doc, "components");
    PlanAfter(WithSuffix, fix, components, |components|, Plan(map[], AllIds(doc)))
  }

  function BusPlan(doc: Object, fix: set<string>): Plan
  {
    var buses := ItemsOf(doc, "buses");
    PlanAfter(AsBus, fix, buses, |buses|, ComponentPlan(doc, fix))
  }

  /** The second repair renames exactly the ids ESPHome refuses, when some id is an integration
      name and the document renders: a bus for its type, any other component after its id, each
      by the first number that is not in use at the end of its loop. */
  lemma SecondRenamesExactly(names: set<string>, conflicts: Conflicts, chained: Object, id: string)
    ensures
      var doc := ApplyIdRenames(chained, FirstRenames(chained));
      var renames, ids := SecondRenames(names, conflicts, chained), ComponentIdsOf(doc) + BusIdsOf(doc);
      var fix := if conflicts(doc).Some? then conflicts(doc).value else {};
      && (id in renames <==> id in ids && (exists x :: x in ids && x in names) && id in fix)
      && (id in renames && id in BusIdsOf(doc) ==>
            exists i: nat :: Names(doc, "buses", i, id)
              && NamedAsBus(renames[id], ItemsOf(doc, "buses")[i], BusPlan(doc, fix).taken))
      && (id in renames && id !in BusIdsOf(doc) ==> NamedAfter(renames[id], id, ComponentPlan(doc, fix).taken))
  {
    hide NamedAsBus, NamedAfter, FirstRenames, BusPlan, ComponentPlan, IntegrationRenames;
    var doc := ApplyIdRenames(chained, FirstRenames(chained));
    var fix, renames := ConflictsToFix(names, conflicts, doc), SecondRenames(names, conflicts, chained);
    IntegrationPlan(doc, fix);
    if id in renames {
      BusNames(doc, fix, id);
      ComponentNames(doc, fix, id);
    }
  }

  lemma PlansStart(doc: Object, fix: set<string>)
    ensures ComponentPlan(doc, fix).renames.Keys == ComponentIdsOf(doc) * fix
    ensures IntegrationRenames(doc, fix) == BusPlan(doc, fix).renames
  {
    hide PlanAfter, FreshRenames;
    var components, start := ItemsOf(doc, "components"), Plan(map[], AllIds(doc));
    assert components[..|components|] == components;
    NothingRenamed(AllIds(doc));
    PlanIsFresh(WithSuffix, fix, components, |components|, start, AllIds(doc));
  }

  lemma NothingRenamed(ids: set<string>)
    ensures FreshRenames(map[], ids)
  {
  }

  lemma BusNames(doc: Object, fix: set<string>, id: string)
    requires id in AllIds(doc) * fix
    ensures id in BusIdsOf(doc) ==> id in IntegrationRenames(doc, fix) && exists i: nat ::
      Names(doc, "buses", i, id)
      && NamedAsBus(IntegrationRenames(doc, fix)[id], ItemsOf(doc, "buses")[i], BusPlan(doc, fix).taken)
  {
    hide PlanAfter, ComponentPlan, NamedAsBus;
    var buses := ItemsOf(doc, "buses");
    assert buses[..|buses|] == buses;
    PlansStart(doc, fix);
    if id in BusIdsOf(doc) {
      PlanNames(AsBus, fix, buses, |buses|, ComponentPlan(doc, fix), id);
      var i :| i < |buses| && NamedFor(AsBus, buses, i, id, BusPlan(doc, fix));
      assert Names(doc, "buses", i, id);
    }
  }

  lemma ComponentNames(doc: Object, fix: set<string>, id: string)
    requires id in AllIds(doc) * fix
    ensures id !in BusIdsOf(doc) ==>
      id in IntegrationRenames(doc, fix)
      && NamedAfter(IntegrationRenames(doc, fix)[id], id, ComponentPlan(doc, fix).taken)
  {
    hide PlanAfter, NamedAfter;
    var components, buses := ItemsOf(doc, "components"), ItemsOf(doc, "buses");
    assert components[..|components|] == components;
    PlansStart(doc, fix);
    if id !in BusIdsOf(doc) {
      PlanNames(WithSuffix, fix, components, |components|, Plan(map[], AllIds(doc)), id);
      PlanLeaves(AsBus, fix, buses, |buses|, ComponentPlan(doc, fix), id);
    }
  }

  lemma {:induction false} PlanLeaves(naming: Naming, wanted: set<string>, items: seq<Json>, n: nat, plan: Plan,
                                      id: string)
    requires n <= |items| && id !in IdsOf(items) && id in plan.renames
    ensures
      var r := PlanAfter(naming, wanted, items, n, plan).renames;
      id in r && r[id] == plan.renames[id]
  {
    hide NewId;
    if n > 0 {
      PlanLeaves(naming, wanted, items, n - 1, plan, id);
    }
  }
}
