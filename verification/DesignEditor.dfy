/** The edits as the code runs them: handlers that change one document in place, each tied to
    the function of DesignEdits it computes. */
module DesignEditor {
  import opened Options
  import opened Text
  import opened DesignModel
  import opened BusIds
  import opened PinSolver
  import opened DesignEdits

  class Document {
    const env: Env
    var board: Option<string>
    var components: seq<Component>
    var buses: seq<Bus>
    var connections: seq<Connection>

    ghost function Now(): Design
      reads this
    {
      Design(board, components, buses, connections)
    }

    constructor (env: Env, d: Design)
      ensures this.env == env && Now() == d
    {
      this.env := env;
      board, components, buses, connections := d.board, d.components, d.buses, d.connections;
    }

    method AddMissingBuses(entry: LibComponent, b: Board)
      modifies this`buses
      ensures buses == PrepareBuses(env, old(buses), entry, b)
    {
      var kinds := env.order(NeededBusTypes(entry.pins) - BusKinds(buses));
      for i := 0 to |kinds|
        invariant buses == WithBuses(old(buses), kinds, i, b)
      {
        var id := FindBusId(buses, kinds[i]);
        buses := buses + [Bus(id, kinds[i], DefaultFields(b, kinds[i]))];
      }
    }

    method SeedConnections(id: string, entry: LibComponent, rails: seq<PowerRail>)
      modifies this`connections
      ensures connections == old(connections) + Seeds(id, entry.pins, |entry.pins|, rails, buses, entry)
    {
      for i := 0 to |entry.pins|
        invariant connections == old(connections) + Seeds(id, entry.pins, i, rails, buses, entry)
      {
        connections := connections
          + [Connection(id, entry.pins[i].role, DefaultTarget(entry.pins[i], rails, buses, entry))];
      }
    }

    method FreshInstanceId(libraryId: string, hint: string) returns (id: string)
      ensures id == InstanceId(IdSet(components), libraryId, hint)
    {
      if hint != "" && hint !in IdSet(components) {
        return hint;
      }
      var n := FindFree(Sanitized(libraryId) + "_", IdSet(components), 1);
      return Numbered(Sanitized(libraryId) + "_", n);
    }

    /** The two loops that carry a refused id's replacement through the document. */
    method Rename(from: string, id: string)
      modifies this`components, this`connections
      ensures Now() == RenameInstance(old(Now()), from, id)
    {
      for i := 0 to |components|
        modifies this`components
        invariant |components| == |old(components)|
        invariant forall k :: 0 <= k < i ==>
          components[k] == if old(components[k]).id == from then old(components[k]).(id := id) else old(components[k])
        invariant forall k :: i <= k < |components| ==> components[k] == old(components[k])
      {
        if components[i].id == from {
          components := components[i := components[i].(id := id)];
        }
      }
      for i := 0 to |connections|
        modifies this`connections
        invariant |connections| == |old(connections)|
        invariant forall k :: 0 <= k < i ==>
          connections[k] == if old(connections[k]).componentId == from then old(connections[k]).(componentId := id)
                            else old(connections[k])
        invariant forall k :: i <= k < |connections| ==> connections[k] == old(connections[k])
      {
        if connections[i].componentId == from {
          connections := connections[i := connections[i].(componentId := id)];
        }
      }
      assert components == RenameInstance(old(Now()), from, id).components;
      assert connections == RenameInstance(old(Now()), from, id).connections;
    }

    method AddPart(libraryId: string, hint: string) returns (id: string)
      requires libraryId in env.library.components
      modifies this
      ensures Added(id, Now()) == AddWithConnections(env, old(Now()), libraryId, hint)
    {
      var entry := env.library.components[libraryId];
      ghost var used := IdSet(components);
      var taken := IdSet(components);
      id := FreshInstanceId(libraryId, hint);
      components := components + [Component(id, libraryId, [], None)];
      var rails: seq<PowerRail> := [];
      if board.Some? && board.value != "" && board.value in env.library.boards {
        var b := env.library.boards[board.value];
        rails := b.rails;
        AddMissingBuses(entry, b);
      }
      SeedConnections(id, entry, rails);
      assert Added(id, Now()) == Appended(env, old(Now()), libraryId, hint);
      if env.refuses(Design(board, components, buses, connections), id) {
        var n := FindFree(id + "_", taken, 1);
        var renamed := Numbered(id + "_", n);
        Rename(id, renamed);
        id := renamed;
      }
    }

    method DropBuses(drop: set<string>)
      modifies this`buses, this`connections
      ensures Now() == WithoutBuses(old(Now()), drop)
    {
      var all := buses;
      buses := [];
      for i := 0 to |all|
        modifies this`buses
        invariant buses == KeepBuses(all[..i], drop)
      {
        assert all[..i + 1][..i] == all[..i];
        if all[i].id !in drop {
          buses := buses + [all[i]];
        }
      }
      assert all[..|all|] == all;
      for i := 0 to |connections|
        modifies this`connections
        invariant |connections| == |old(connections)|
        invariant forall k :: 0 <= k < i ==> connections[k] == Detach(old(connections[k]), drop)
        invariant forall k :: i <= k < |connections| ==> connections[k] == old(connections[k])
      {
        if connections[i].target.OnBus? && connections[i].target.busId in drop {
          connections := connections[i := connections[i].(target := OnBus(""))];
        }
      }
      assert connections == WithoutBuses(old(Now()), drop).connections;
    }

    method AdoptTargets(id: string, solved: seq<Connection>)
      modifies this`connections
      ensures Now() == Adopted(old(Now()), id, solved)
    {
      for i := 0 to |connections|
        modifies this`connections
        invariant |connections| == |old(connections)|
        invariant forall k :: 0 <= k < i ==> connections[k] == Adopt(old(connections[k]), id, solved)
        invariant forall k :: i <= k < |connections| ==> connections[k] == old(connections[k])
      {
        if connections[i].componentId == id {
          var t := TargetOf(solved, id, connections[i].role);
          if t.Some? {
            connections := connections[i := connections[i].(target := t.value)];
          }
        }
      }
      assert connections == Adopted(old(Now()), id, solved).connections;
    }

    /** `_run_add_component`. */
    method Add(libraryId: string, hint: string) returns (id: Option<string>)
      modifies this
      ensures id.None? <==> libraryId !in env.library.components
      ensures id.None? ==> Now() == old(Now())
      ensures id.Some? ==> AddComponent(env, old(Now()), libraryId, hint) == Some(Added(id.value, Now()))
    {
      if libraryId !in env.library.components {
        return None;
      }
      var before := BusIdSet(buses);
      var newId := AddPart(libraryId, hint);
      DropBuses(EmptyBuses(before, buses));
      assert Added(newId, Now()) == Seeded(env, old(Now()), libraryId, hint);
      var solved := SolvePins(Design(board, components, buses, connections), env.library);
      AdoptTargets(newId, solved.design.connections);
      return Some(newId);
    }

    method AddModulePart(part: ModulePart, m: ModuleRef) returns (ok: bool)
      modifies this
      ensures (Now(), ok) == InsertPart(env, old(Now()), part, m)
    {
      if part.libraryId !in env.library.components {
        return false;
      }
      var id := AddPart(part.libraryId, part.hint);
      StampFirst(id, m);
      return true;
    }

    /** `insert_module`: stops, with an error, at a part the library does not have. */
    method Insert(parts: seq<ModulePart>, m: ModuleRef) returns (ok: bool)
      modifies this
      ensures (Now(), ok) == InsertParts(env, old(Now()), parts, |parts|, m)
    {
      hide InsertPart;
      ghost var was := Now();
      for i := 0 to |parts|
        invariant (Now(), true) == InsertParts(env, was, parts, i, m)
      {
        ok := AddModulePart(parts[i], m);
        if !ok {
          StopsThere(env, was, parts, i + 1, m);
          return false;
        }
      }
      return true;
    }

    method StampFirst(id: string, m: ModuleRef)
      modifies this`components
      ensures components == Stamp(old(components), id, m)
    {
      hide Stamp;
      var all := components;
      for i := 0 to |all|
        invariant components == all && forall k :: 0 <= k < i ==> all[k].id != id
      {
        if all[i].id == id {
          StampFinds(all, i, id, m);
          components := all[i := all[i].(part := Some(m))];
          return;
        }
      }
      StampMisses(all, id, m);
    }

    /** `_run_remove_component`. */
    method Remove(id: string) returns (ok: bool)
      modifies this`components, this`connections
      ensures ok <==> RemoveComponent(old(Now()), id).Some?
      ensures Now() == if ok then RemoveComponent(old(Now()), id).value else old(Now())
    {
      if id !in IdSet(components) {
        return false;
      }
      var all, wires := components, connections;
      components, connections := [], [];
      for i := 0 to |all|
        invariant components == KeepComponents(all[..i], id) && connections == []
      {
        assert all[..i + 1][..i] == all[..i];
        if all[i].id != id {
          components := components + [all[i]];
        }
      }
      assert all[..|all|] == all;
      for i := 0 to |wires|
        invariant connections == KeepConnections(wires[..i], id) && components == KeepComponents(all, id)
      {
        assert wires[..i + 1][..i] == wires[..i];
        if wires[i].componentId != id {
          connections := connections + [wires[i]];
        }
      }
      assert wires[..|wires|] == wires;
      return true;
    }

    /** `_run_add_bus`. */
    method NewBus(id: string, kind: string, fields: map<string, string>) returns (ok: bool)
      modifies this`buses
      ensures ok <==> AddBusTo(old(Now()), env.library, id, kind, fields).Some?
      ensures Now() == if ok then AddBusTo(old(Now()), env.library, id, kind, fields).value else old(Now())
    {
      if id in RESERVED_BUS_IDS || id in BusIdSet(buses) {
        return false;
      }
      var defaults: map<string, string> := map[];
      if board.Some? && board.value != "" && kind != "" && board.value in env.library.boards {
        defaults := DefaultFields(env.library.boards[board.value], kind);
      }
      var bus := Bus(id, kind, defaults + fields);
      for i := 0 to |buses|
        invariant forall k :: 0 <= k < i ==> PinsOf(buses[k].fields) * PinsOf(bus.fields) == {}
      {
        if PinsOf(buses[i].fields) * PinsOf(bus.fields) != {} {
          return false;
        }
      }
      buses := buses + [bus];
      return true;
    }

    /** `_run_solve_pins`: the document becomes the solver's result. */
    method SolveInPlace() returns (assignments: seq<Assignment>)
      modifies this
      ensures Now() == Solve(old(Now()), env.library).design
      ensures assignments == Solve(old(Now()), env.library).assignments
    {
      var r := SolvePins(Design(board, components, buses, connections), env.library);
      board, components, buses, connections :=
        r.design.board, r.design.components, r.design.buses, r.design.connections;
      return r.assignments;
    }
  }

  lemma {:induction false} StampFinds(all: seq<Component>, i: nat, id: string, m: ModuleRef)
    requires i < |all| && all[i].id == id && forall k :: 0 <= k < i ==> all[k].id != id
    ensures Stamp(all, id, m) == all[i := all[i].(part := Some(m))]
  {
    if i > 0 {
      StampFinds(all[1..], i - 1, id, m);
    }
  }

  lemma {:induction false} StampMisses(all: seq<Component>, id: string, m: ModuleRef)
    requires forall c | c in all :: c.id != id
    ensures Stamp(all, id, m) == all
  {
    if all != [] {
      StampMisses(all[1..], id, m);
    }
  }

  /** Once a part is missing, the rest of the module is not looked at. */
  lemma {:induction false} StopsThere(env: Env, d: Design, parts: seq<ModulePart>, n: nat, m: ModuleRef)
    requires 0 < n <= |parts| && !InsertParts(env, d, parts, n, m).1
    ensures InsertParts(env, d, parts, |parts|, m) == (InsertParts(env, d, parts, n, m).0, false)
    decreases |parts| - n
  {
    if n < |parts| {
      StopsThere(env, d, parts, n + 1, m);
    }
  }
}
