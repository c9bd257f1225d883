/** The version chain and the repairs after it (wirestudio/migrate.py:60-69, 175-180, 275-322).
    The lowering step is a parameter: the chain's guarantees hold for any such function. */
module DocMigration {
  import opened Options
  import opened Text
  import opened BusIds
  import opened IdRepair

  const CURRENT := "1.0"

  datatype StepInfo = StepInfo(fromVersion: string, toVersion: string, name: string)

  const STEPS := [
    StepInfo("0.1", "0.2", "lower_lorawan_sugar"),
    StepInfo("0.2", "0.3", "drop_unread_fields"),
    StepInfo("0.3", "1.0", "retire_lorawan_sugar")]

  type Lower = Object -> Object

  const UNREAD_TOP := {"created_at", "updated_at", "agent"}
  const UNREAD_LORAWAN := {"chirpstack_application_id", "device_profile_id", "provisioning", "dev_eui"}

  function DropUnreadFields(doc: Object): Object
  {
    var out := map k | k in doc && k !in UNREAD_TOP :: doc[k];
    if "lorawan" in doc && doc["lorawan"].Obj? then
      var lw := doc["lorawan"].fields;
      out["lorawan" := Obj(map k | k in lw && k !in UNREAD_LORAWAN :: lw[k])]
    else out
  }

  /** `{**step.apply(document), "schema_version": step.to_version}`. */
  function ApplyStep(lower: Lower, step: StepInfo, doc: Object): Object
  {
    var after := if step.name == "drop_unread_fields" then DropUnreadFields(doc) else lower(doc);
    after["schema_version" := Str(step.toVersion)]
  }

  predicate Readable(version: string)
  {
    version in {"0.1", "0.2", "0.3", CURRENT}
  }

  /** Where in the chain a readable version stands. */
  function Position(version: string): nat
    requires Readable(version)
    ensures Position(version) <= |STEPS|
    ensures Position(version) < |STEPS| <==> version != CURRENT
  {
    if version == "0.1" then 0 else if version == "0.2" then 1 else if version == "0.3" then 2 else 3
  }

  function Chain(lower: Lower, doc: Object, position: nat): Object
    requires position <= |STEPS|
    decreases |STEPS| - position
  {
    if position == |STEPS| then doc else Chain(lower, ApplyStep(lower, STEPS[position], doc), position + 1)
  }

  function StepNames(position: nat): seq<string>
    requires position <= |STEPS|
  {
    seq(|STEPS| - position, i requires 0 <= i < |STEPS| - position => STEPS[position + i].name)
  }

  // ------------------------------------------------------------- the repairs

  /** What ESPHome would refuse in a document; None when the document does not render. */
  type Conflicts = Object -> Option<set<string>>

  function ConflictsToFix(names: set<string>, conflicts: Conflicts, doc: Object): set<string>
  {
    if AllIds(doc) !! names || conflicts(doc).None? then {} else conflicts(doc).value
  }

  datatype Migration = Migration(document: Object, fromVersion: string, toVersion: string, applied: seq<string>)

  datatype Result =
    | Ok(migration: Migration)
    | NotAnObject
    | NoVersion
    | UnknownVersion(version: string)

  function Repair(names: set<string>, conflicts: Conflicts, doc: Object): (Object, seq<string>)
  {
    var unreserved := RenameReservedBusIds(doc);
    var renames := IntegrationRenames(unreserved, ConflictsToFix(names, conflicts, unreserved));
    (ApplyIdRenames(unreserved, renames),
     (if ReservedRenames(doc) != map[] then ["rename_reserved_bus_ids"] else [])
     + (if renames != map[] then ["rename_integration_name_ids"] else []))
  }

  function Migrate(lower: Lower, names: set<string>, conflicts: Conflicts, raw: Json): Result
  {
    if !raw.Obj? then NotAnObject
    else if "schema_version" !in raw.fields || !raw.fields["schema_version"].Str?
            || raw.fields["schema_version"].text == "" then NoVersion
    else
      var version := raw.fields["schema_version"].text;
      if !Readable(version) then UnknownVersion(version)
      else
        var (document, repairs) := Repair(names, conflicts, Chain(lower, raw.fields, Position(version)));
        Ok(Migration(document, version, CURRENT, StepNames(Position(version)) + repairs))
  }

  lemma StepNamesStep(position: nat)
    requires position < |STEPS|
    ensures StepNames(position) == [STEPS[position].name] + StepNames(position + 1)
  {
  }

  /** One turn of the chain: where it leads, what is left of it, and its name. */
  lemma OneStep(lower: Lower, doc: Object, version: string)
    requires Readable(version) && version != CURRENT
    ensures
      var step := STEPS[Position(version)];
      && Readable(step.toVersion) && Position(step.toVersion) == Position(version) + 1
      && Chain(lower, doc, Position(version)) == Chain(lower, ApplyStep(lower, step, doc), Position(step.toVersion))
      && StepNames(Position(version)) == [step.name] + StepNames(Position(step.toVersion))
  {
    hide ApplyStep, StepNames;
    StepNamesStep(Position(version));
  }

  method TakeStep(lower: Lower, doc: Object, from: string) returns (document: Object, name: string, version: string)
    requires Readable(from) && from != CURRENT
    ensures Readable(version) && Position(version) == Position(from) + 1
    ensures Chain(lower, doc, Position(from)) == Chain(lower, document, Position(version))
    ensures StepNames(Position(from)) == [name] + StepNames(Position(version))
  {
    var step := STEPS[Position(from)];
    OneStep(lower, doc, from);
    return ApplyStep(lower, step, doc), step.name, step.toVersion;
  }

  /** The while loop of `migrate`. */
  method RunChain(lower: Lower, doc: Object, from: string)
    returns (document: Object, applied: seq<string>, version: string)
    requires Readable(from)
    ensures document == Chain(lower, doc, Position(from)) && applied == StepNames(Position(from)) && version == CURRENT
  {
    ChainEnds(lower);
    hide ApplyStep, Readable, Chain, StepNames, Position;
    document, applied, version := doc, [], from;
    while version != CURRENT
      invariant Readable(version)
      invariant Chain(lower, doc, Position(from)) == Chain(lower, document, Position(version))
      invariant applied + StepNames(Position(version)) == StepNames(Position(from))
      decreases |STEPS| - Position(version)
    {
      ghost var before := StepNames(Position(version));
      var name;
      document, name, version := TakeStep(lower, document, version);
      assert applied + before == (applied + [name]) + StepNames(Position(version));
      applied := applied + [name];
    }
    assert applied + [] == applied;
  }

  lemma ChainEnds(lower: Lower)
    ensures Position(CURRENT) == |STEPS| && StepNames(|STEPS|) == [] && forall doc :: Chain(lower, doc, |STEPS|) == doc
  {
  }

  /** The loop over the repairs. */
  method RunRepairs(names: set<string>, conflicts: Conflicts, doc: Object)
    returns (document: Object, applied: seq<string>)
    ensures (document, applied) == Repair(names, conflicts, doc)
  {
    hide RenameReservedBusIds, IntegrationRenames, ConflictsToFix, ApplyIdRenames;
    var unreserved, first := RepairReservedBusIds(doc);
    applied := if first then ["rename_reserved_bus_ids"] else [];
    var second;
    document, second := RepairIntegrationNames(unreserved, ConflictsToFix(names, conflicts, unreserved));
    applied := applied + if second then ["rename_integration_name_ids"] else [];
  }

  method MigrateDocument(lower: Lower, names: set<string>, conflicts: Conflicts, raw: Json) returns (r: Result)
    ensures r == Migrate(lower, names, conflicts, raw)
  {
    if !raw.Obj? {
      return NotAnObject;
    }
    if "schema_version" !in raw.fields || !raw.fields["schema_version"].Str?
       || raw.fields["schema_version"].text == "" {
      return NoVersion;
    }
    var from := raw.fields["schema_version"].text;
    if !Readable(from) {
      return UnknownVersion(from);
    }
    var document, applied, version := RunChain(lower, raw.fields, from);
    var repaired, repairs := RunRepairs(names, conflicts, document);
    hide Chain, Repair;
    return Ok(Migration(repaired, from, version, applied + repairs));
  }

  // ------------------------------------------------------- what migration gives

  /** The version field after the chain, and after any repair: renames only reach ids and
      references, and `schema_version` is neither. */
  lemma {:induction false} ChainEndsCurrent(lower: Lower, doc: Object, position: nat)
    requires position <= |STEPS|
    requires position == |STEPS| ==> "schema_version" in doc && doc["schema_version"] == Str(CURRENT)
    ensures
      var out := Chain(lower, doc, position);
      "schema_version" in out && out["schema_version"] == Str(CURRENT)
    decreases |STEPS| - position
  {
    if position < |STEPS| {
      ChainEndsCurrent(lower, ApplyStep(lower, STEPS[position], doc), position + 1);
    }
  }

  lemma RenameKeepsVersion(doc: Object, renames: map<string, string>)
    requires "schema_version" in doc && doc["schema_version"].Str?
    ensures
      var out := ApplyIdRenames(doc, renames);
      "schema_version" in out && out["schema_version"] == doc["schema_version"]
  {
    assert !IsReferenceKey("schema_version") by {
      var key := "schema_version";
      assert key[|key| - 3..] == "ion" && "ion"[0] != "_id"[0];
      assert |"sensor"| != |key|;
    }
    assert "schema_version" != "components" && "schema_version" != "buses" by {
      assert "schema_version"[0] == 's';
    }
    if renames != map[] {
      var walked: Object := Walk(renames, Obj(doc), "").fields;
      assert walked["schema_version"] == Walk(renames, doc["schema_version"], "schema_version");
    }
  }

  /** A section that was missing or not a list is a list after a rename. */
  lemma RenameKeepsSections(doc: Object, renames: map<string, string>)
    requires HasSections(doc)
    ensures HasSections(ApplyIdRenames(doc, renames))
  {
  }

  /** An object with a version this release reads. */
  predicate Migratable(raw: Json)
  {
    && raw.Obj? && "schema_version" in raw.fields
    && raw.fields["schema_version"].Str? && Readable(raw.fields["schema_version"].text)
  }

  /** The three refusals, each with its one reason. */
  lemma RefusedExactly(lower: Lower, names: set<string>, conflicts: Conflicts, raw: Json)
    ensures
      var version := if raw.Obj? && "schema_version" in raw.fields then Some(raw.fields["schema_version"]) else None;
      match Migrate(lower, names, conflicts, raw)
      case NotAnObject => !raw.Obj?
      case NoVersion => raw.Obj? && (version.None? || !version.value.Str? || |version.value.text| == 0)
      case UnknownVersion(v) => version == Some(Str(v)) && |v| > 0 && v !in {"0.1", "0.2", "0.3", "1.0"}
      case Ok(m) => version == Some(Str(m.fromVersion)) && m.fromVersion in {"0.1", "0.2", "0.3", "1.0"}
  {
    hide Chain, Repair;
  }

  /** Nothing else is migrated, and nothing of the kind is refused. */
  lemma MigratesIffReadable(lower: Lower, names: set<string>, conflicts: Conflicts, raw: Json)
    ensures Migrate(lower, names, conflicts, raw).Ok? <==> Migratable(raw)
  {
    hide Chain, Repair;
  }

  /** It then reaches the current version by exactly the steps that were missing, in order, and
      at most the two repairs after them. */
  lemma MigrationReachesCurrent(lower: Lower, names: set<string>, conflicts: Conflicts, raw: Json)
    requires Migratable(raw)
    ensures Migrate(lower, names, conflicts, raw).Ok?
    ensures
      var m := Migrate(lower, names, conflicts, raw).migration;
      && m.toVersion == CURRENT && raw.fields["schema_version"] == Str(m.fromVersion)
      && "schema_version" in m.document && m.document["schema_version"] == Str(CURRENT)
      && exists n, repairs :: 0 <= n <= |STEPS| && StartsAt(n, m.fromVersion)
           && repairs in REPAIRS_MADE && m.applied == StepNames(n) + repairs
  {
    MigratesIffReadable(lower, names, conflicts, raw);
    var m := Migrate(lower, names, conflicts, raw).migration;
    var n := Position(m.fromVersion);
    var doc := Chain(lower, raw.fields, n);
    ChainEndsCurrent(lower, raw.fields, n);
    RepairKeepsVersion(names, conflicts, doc);
    hide Chain, Repair, StepNames;
    PositionStarts(m.fromVersion);
    assert StartsAt(n, m.fromVersion) && m.applied == StepNames(n) + Repair(names, conflicts, doc).1;
  }

  lemma RepairKeepsVersion(names: set<string>, conflicts: Conflicts, doc: Object)
    requires "schema_version" in doc && doc["schema_version"].Str?
    ensures
      var (out, repairs) := Repair(names, conflicts, doc);
      "schema_version" in out && out["schema_version"] == doc["schema_version"] && repairs in REPAIRS_MADE
  {
    var unreserved := RenameReservedBusIds(doc);
    RenameKeepsVersion(doc, ReservedRenames(doc));
    RenameKeepsVersion(unreserved, IntegrationRenames(unreserved, ConflictsToFix(names, conflicts, unreserved)));
    hide IntegrationRenames, ConflictsToFix, ApplyIdRenames, ReservedRenames;
    AtMostBoth(ReservedRenames(doc) != map[],
               IntegrationRenames(unreserved, ConflictsToFix(names, conflicts, unreserved)) != map[]);
  }

  lemma AtMostBoth(first: bool, second: bool)
    ensures
      (if first then ["rename_reserved_bus_ids"] else [])
      + (if second then ["rename_integration_name_ids"] else []) in REPAIRS_MADE
  {
    var none: seq<string> := [];
    var a, b := ["rename_reserved_bus_ids"], ["rename_integration_name_ids"];
    assert none + none == none && a + none == a && none + b == b;
    assert a + b == ["rename_reserved_bus_ids", "rename_integration_name_ids"];
  }

  predicate StartsAt(n: nat, version: string)
    requires n <= |STEPS|
  {
    if n == |STEPS| then version == CURRENT else STEPS[n].fromVersion == version
  }

  lemma PositionStarts(version: string)
    requires Readable(version)
    ensures StartsAt(Position(version), version)
  {
  }

  const REPAIRS_MADE := {[], ["rename_reserved_bus_ids"], ["rename_integration_name_ids"],
                         ["rename_reserved_bus_ids", "rename_integration_name_ids"]}

  // ------------------------------------------------------------ migrating twice

  /** The second repair leaves nothing for either repair to do. `more` is what ESPHome refuses
      in the repaired document: no more than before, and none of the new names. */
  lemma RepairedIsClean(doc: Object, fix: set<string>, more: set<string>)
    requires HasSections(doc) && BusIdsOf(doc) !! RESERVED_BUS_IDS
    requires more <= fix && IntegrationRenames(doc, fix).Values !! more
    ensures
      var out := ApplyIdRenames(doc, IntegrationRenames(doc, fix));
      ReservedRenames(out) == map[] && IntegrationRenames(out, more) == map[]
  {
    var renames := IntegrationRenames(doc, fix);
    var out := ApplyIdRenames(doc, renames);
    IntegrationPlan(doc, fix);
    IntegrationNamesUnreserved(doc, fix);
    forall id | id in BusIdsOf(out) ensures id !in RESERVED_BUS_IDS {
      SectionIds(doc, renames, "buses", id);
      var x :| x in BusIdsOf(doc) && Renamed(renames, x) == id;
      assert x in renames ==> renames[x] in renames.Values;
    }
    forall id | id in AllIds(out) ensures id !in more {
      var section := if id in ComponentIdsOf(out) then "components" else "buses";
      SectionIds(doc, renames, section, id);
      var x :| x in IdsOf(ItemsOf(doc, section)) && Renamed(renames, x) == id;
      assert x in renames ==> renames[x] in renames.Values;
    }
    ReservedPlan(out);
    IntegrationPlan(out, more);
    assert BusIdsOf(out) * RESERVED_BUS_IDS == {} && AllIds(out) * more == {};
  }

  /** What is assumed of ESPHome's refusals on this document: they are integration names, the
      repaired document loads no new integration, and no new name is an integration's. */
  predicate RefusalsSettle(names: set<string>, conflicts: Conflicts, chained: Object)
  {
    var unreserved := RenameReservedBusIds(chained);
    var renames := IntegrationRenames(unreserved, ConflictsToFix(names, conflicts, unreserved));
    var before, after := conflicts(unreserved), conflicts(ApplyIdRenames(unreserved, renames));
    && renames.Values !! names
    && (before.Some? ==> before.value <= names)
    && (after.Some? ==> before.Some? && after.value <= before.value)
  }

  lemma RepairTwice(names: set<string>, conflicts: Conflicts, chained: Object)
    requires HasSections(chained) && RefusalsSettle(names, conflicts, chained)
    ensures
      var out := Repair(names, conflicts, chained).0;
      Repair(names, conflicts, out) == (out, [])
  {
    var unreserved := RenameReservedBusIds(chained);
    var fix := ConflictsToFix(names, conflicts, unreserved);
    RenameKeepsSections(chained, ReservedRenames(chained));
    NoReservedLeft(chained);
    IntegrationPlan(unreserved, fix);
    var out := ApplyIdRenames(unreserved, IntegrationRenames(unreserved, fix));
    var more := ConflictsToFix(names, conflicts, out);
    if fix == {} {
      assert AllIds(unreserved) * fix == {};
      assert out == unreserved;
    }
    assert more <= fix;
    RepairedIsClean(unreserved, fix, more);
    assert RenameReservedBusIds(out) == out && ApplyIdRenames(out, map[]) == out;
    assert Repair(names, conflicts, out).1 == [] + [];
  }

  /** Migrating a migrated document applies no step and no repair. */
  lemma MigrateTwice(lower: Lower, names: set<string>, conflicts: Conflicts, raw: Json)
    requires Migratable(raw)
    requires
      var chained := Chain(lower, raw.fields, Position(raw.fields["schema_version"].text));
      HasSections(chained) && RefusalsSettle(names, conflicts, chained)
    ensures
      var out := Migrate(lower, names, conflicts, raw).migration.document;
      Migrate(lower, names, conflicts, Obj(out)) == Ok(Migration(out, CURRENT, CURRENT, []))
  {
    var chained := Chain(lower, raw.fields, Position(raw.fields["schema_version"].text));
    MigrationReachesCurrent(lower, names, conflicts, raw);
    RepairTwice(names, conflicts, chained);
    assert StepNames(|STEPS|) == [];
    hide Repair, RefusalsSettle;
  }
}
