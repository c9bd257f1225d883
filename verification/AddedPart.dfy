/** What adding one part does to the rest of the document, and where its pins go. */
module AddedPart {
  import opened Options
  import opened DesignModel
  import opened PinSolver
  import opened SolverTrace
  import opened SolverSafety
  import opened DesignEdits
  import opened DesignInvariant

  /** `id` is a new last component, its connections the new last ones, one per library pin in
      library order; everything before is as it was. */
  ghost predicate AppendsPart(d: Design, r: Design, id: string, libraryId: string, pins: seq<LibPin>)
  {
    && id !in IdSet(d.components)
    && r.components == d.components + [Component(id, libraryId, [], None)]
    && d.buses <= r.buses && r.board == d.board
    && |r.connections| == |d.connections| + |pins|
    && (forall j :: 0 <= j < |d.connections| ==> r.connections[j] == d.connections[j])
    && (forall k :: 0 <= k < |pins| ==> IsFor(r.connections[|d.connections| + k], id, pins[k].role))
  }

  /** A sound design that leaves seeding its fresh bus names. */
  ghost predicate Ready(env: Env, d: Design, libraryId: string)
    requires libraryId in env.library.components
  {
    Enumerates(env.order) && Inv(d) && SeedsFresh(env, d, libraryId)
  }

  predicate IsFor(c: Connection, id: string, role: string)
  {
    c.componentId == id && c.role == role
  }

  lemma AppendedPieces(env: Env, d: Design, libraryId: string, hint: string)
    requires libraryId in env.library.components
    ensures
      var a, entry, board := Appended(env, d, libraryId, hint),
          env.library.components[libraryId], BoardOf(d, env.library);
      var rails := if board.Some? then board.value.rails else [];
      && a.design.board == d.board
      && a.design.components == d.components + [Component(a.id, libraryId, [], None)]
      && a.design.connections == d.connections + Seeds(a.id, entry.pins, |entry.pins|, rails, a.design.buses, entry)
  {
    hide Seeds, IdSet, InstanceId, BoardOf, PrepareBuses;
  }

  lemma AppendedShape(env: Env, d: Design, libraryId: string, hint: string)
    requires libraryId in env.library.components && Ready(env, d, libraryId)
    ensures
      var a := Appended(env, d, libraryId, hint);
      AppendsPart(d, a.design, a.id, libraryId, env.library.components[libraryId].pins)
  {
    hide SeedsFresh, Appended, Seeds, Inv, BusResolves, DefaultTarget,
      IdSet, BusIdSet, InstanceId, BoardOf, PrepareBuses;
    var a := Appended(env, d, libraryId, hint);
    var entry := env.library.components[libraryId];
    var board := BoardOf(d, env.library);
    AppendedKeeps(env, d, libraryId, hint);
    AppendedPieces(env, d, libraryId, hint);
    var rails := if board.Some? then board.value.rails else [];
    SeedsAnchored(a.id, entry.pins, |entry.pins|, rails, a.design.buses, entry);
    var seeds := Seeds(a.id, entry.pins, |entry.pins|, rails, a.design.buses, entry);
    assert a.design.connections == d.connections + seeds;
    forall k | 0 <= k < |entry.pins|
      ensures IsFor(a.design.connections[|d.connections| + k], a.id, entry.pins[k].role)
    {
      assert a.design.connections[|d.connections| + k] == seeds[k];
    }
  }

  lemma RenamedShape(d: Design, r: Design, from: string, id: string, libraryId: string, pins: seq<LibPin>)
    requires Inv(d) && AppendsPart(d, r, from, libraryId, pins) && id !in IdSet(d.components)
    ensures AppendsPart(d, RenameInstance(r, from, id), id, libraryId, pins)
  {
    var renamed := RenameInstance(r, from, id);
    forall i | 0 <= i < |d.components| ensures renamed.components[i] == d.components[i] {
      assert d.components[i].id in IdSet(d.components);
    }
    forall j | 0 <= j < |d.connections| ensures renamed.connections[j] == d.connections[j] {
      assert Anchored(d.connections[j], d);
    }
  }

  lemma AddWithConnectionsShape(env: Env, d: Design, libraryId: string, hint: string)
    requires libraryId in env.library.components && Ready(env, d, libraryId)
    ensures
      var a := AddWithConnections(env, d, libraryId, hint);
      AppendsPart(d, a.design, a.id, libraryId, env.library.components[libraryId].pins)
  {
    hide SeedsFresh;
    var a := Appended(env, d, libraryId, hint);
    AppendedShape(env, d, libraryId, hint);
    if env.refuses(a.design, a.id) {
      RenamedShape(d, a.design, a.id, SuffixedId(IdSet(d.components), a.id), libraryId,
                   env.library.components[libraryId].pins);
    }
  }

  lemma {:induction false} KeepBusesPrefix(before: seq<Bus>, buses: seq<Bus>, drop: set<string>)
    requires before <= buses && drop !! BusIdSet(before)
    ensures before <= KeepBuses(buses, drop)
    ensures before == buses ==> KeepBuses(buses, drop) == buses
    decreases |buses|
  {
    if |buses| > |before| {
      KeepBusesPrefix(before, buses[..|buses| - 1], drop);
    } else if buses != [] {
      assert before == buses && buses[|buses| - 1].id in BusIdSet(before);
      assert BusIdSet(buses[..|buses| - 1]) <= BusIdSet(before);
      KeepBusesPrefix(buses[..|buses| - 1], buses[..|buses| - 1], drop);
      assert buses == buses[..|buses| - 1] + [buses[|buses| - 1]];
    }
  }

  lemma DroppedShape(d: Design, r: Design, drop: set<string>, id: string, libraryId: string, pins: seq<LibPin>)
    requires Inv(d) && AppendsPart(d, r, id, libraryId, pins) && drop !! BusIdSet(d.buses)
    ensures AppendsPart(d, WithoutBuses(r, drop), id, libraryId, pins)
  {
    KeepBusesPrefix(d.buses, r.buses, drop);
    var kept := WithoutBuses(r, drop);
    forall j | 0 <= j < |d.connections| ensures kept.connections[j] == d.connections[j] {
      assert Anchored(d.connections[j], d);
    }
    forall k | 0 <= k < |pins| ensures IsFor(kept.connections[|d.connections| + k], id, pins[k].role) {
      assert IsFor(r.connections[|d.connections| + k], id, pins[k].role);
    }
  }

  lemma SeededShape(env: Env, d: Design, libraryId: string, hint: string)
    requires libraryId in env.library.components && Ready(env, d, libraryId)
    ensures
      var a := Seeded(env, d, libraryId, hint);
      Inv(a.design) && AppendsPart(d, a.design, a.id, libraryId, env.library.components[libraryId].pins)
  {
    hide SeedsFresh;
    var a := AddWithConnections(env, d, libraryId, hint);
    AddWithConnectionsShape(env, d, libraryId, hint);
    AddWithConnectionsKeeps(env, d, libraryId, hint);
    var drop := EmptyBuses(BusIdSet(d.buses), a.design.buses);
    WithoutBusesKeeps(a.design, drop);
    DroppedShape(d, a.design, drop, a.id, libraryId, env.library.components[libraryId].pins);
  }

  lemma AdoptedShape(d: Design, r: Design, id: string, solved: seq<Connection>, libraryId: string, pins: seq<LibPin>)
    requires Inv(d) && AppendsPart(d, r, id, libraryId, pins)
    ensures AppendsPart(d, Adopted(r, id, solved), id, libraryId, pins)
  {
    var adopted := Adopted(r, id, solved);
    forall j | 0 <= j < |d.connections| ensures adopted.connections[j] == d.connections[j] {
      assert Anchored(d.connections[j], d);
    }
    forall k | 0 <= k < |pins| ensures IsFor(adopted.connections[|d.connections| + k], id, pins[k].role) {
      assert IsFor(r.connections[|d.connections| + k], id, pins[k].role);
    }
  }

  /** Adding a part gives it exactly one connection per library pin and touches nothing that
      was there: no component, no bus, no other connection. */
  lemma AddingTouchesNothingElse(env: Env, d: Design, libraryId: string, hint: string)
    requires libraryId in env.library.components && Ready(env, d, libraryId)
    ensures
      var r := AddKnown(env, d, libraryId, hint);
      AppendsPart(d, r.design, r.id, libraryId, env.library.components[libraryId].pins)
  {
    hide SeedsFresh;
    hide Seeded, AppendsPart, Adopted, Inv;
    SeededShape(env, d, libraryId, hint);
    var a := Seeded(env, d, libraryId, hint);
    var solved := Solve(a.design, env.library).design.connections;
    AdoptedShape(d, a.design, a.id, solved, libraryId, env.library.components[libraryId].pins);
  }

  // ------------------------------------------------------- where its pins go

  /** The last pin that has pin k's role: the one whose target a dict by role ends up with. */
  function LastOfRole(pins: seq<LibPin>, k: nat): (last: nat)
    requires k < |pins|
    ensures k <= last < |pins| && pins[last].role == pins[k].role
    ensures forall l :: last < l < |pins| ==> pins[l].role != pins[k].role
    decreases |pins|
  {
    if pins[|pins| - 1].role == pins[k].role then |pins| - 1 else LastOfRole(pins[..|pins| - 1], k)
  }

  lemma SameLastOfRole(pins: seq<LibPin>, k: nat, l: nat)
    requires k < |pins| && l < |pins|
    ensures LastOfRole(pins, k) == LastOfRole(pins, l) <==> pins[k].role == pins[l].role
  {
  }

  lemma {:induction false} LastTarget(connections: seq<Connection>, id: string, role: string, m: nat)
    requires m < |connections| && IsFor(connections[m], id, role)
    requires forall j :: m < j < |connections| ==> !IsFor(connections[j], id, role)
    ensures TargetOf(connections, id, role) == Some(connections[m].target)
  {
    if m < |connections| - 1 {
      LastTarget(connections[..|connections| - 1], id, role, m);
    }
  }

  lemma {:induction false} FindLast(components: seq<Component>, c: Component)
    ensures FindComponent(components + [c], c.id) == Some(c)
  {
    assert (components + [c])[|components|] == c;
  }

  /** A new connection ends up with the target the solver gave the last pin of its role. */
  lemma NewTargetIsSolved(env: Env, d: Design, libraryId: string, hint: string, k: nat)
    requires libraryId in env.library.components && Ready(env, d, libraryId)
    requires k < |env.library.components[libraryId].pins|
    ensures
      var a := Seeded(env, d, libraryId, hint);
      var r := AddKnown(env, d, libraryId, hint).design;
      var solved := Solve(a.design, env.library).design;
      var m, last := |d.connections| + k, |d.connections| + LastOfRole(env.library.components[libraryId].pins, k);
      && m < |r.connections| && last < |solved.connections|
      && r.connections[m].target == solved.connections[last].target
  {
    hide Ready, Inv, Seeded, Solve, Adopted, LastOfRole;
    SeededShape(env, d, libraryId, hint);
    var a := Seeded(env, d, libraryId, hint);
    SolveFrame(a.design, env.library);
    AdoptsSolved(d, a, libraryId, env.library.components[libraryId].pins,
                 Solve(a.design, env.library).design.connections, k);
  }

  lemma AdoptsSolved(d: Design, a: Added, libraryId: string, pins: seq<LibPin>, solved: seq<Connection>, k: nat)
    requires AppendsPart(d, a.design, a.id, libraryId, pins) && k < |pins|
    requires |solved| == |a.design.connections|
    requires forall j :: 0 <= j < |solved| ==>
      solved[j].componentId == a.design.connections[j].componentId && solved[j].role == a.design.connections[j].role
    ensures
      var m, last := |d.connections| + k, |d.connections| + LastOfRole(pins, k);
      var r := Adopted(a.design, a.id, solved);
      |r.connections| == |solved| && m <= last < |solved| && r.connections[m].target == solved[last].target
  {
    hide LastOfRole;
    var m, last := |d.connections| + k, |d.connections| + LastOfRole(pins, k);
    assert IsFor(a.design.connections[m], a.id, pins[k].role);
    assert IsFor(a.design.connections[last], a.id, pins[last - |d.connections|].role);
    forall j | last < j < |solved| ensures !IsFor(solved[j], a.id, pins[k].role) {
      assert IsFor(a.design.connections[j], a.id, pins[j - |d.connections|].role);
    }
    LastTarget(solved, a.id, pins[k].role, last);
    hide AppendsPart, TargetOf;
  }

  lemma NewPartHasNoLocks(env: Env, d: Design, libraryId: string, hint: string, board: Board, m: nat)
    requires libraryId in env.library.components && Ready(env, d, libraryId)
    requires
      var a := Seeded(env, d, libraryId, hint);
      |d.connections| <= m < |a.design.connections| && BoardOf(a.design, env.library) == Some(board)
    ensures
      var a := Seeded(env, d, libraryId, hint);
      LockFor(ContextOf(a.design, env.library, board), a.design.connections[m]) == None
  {
    hide SeedsFresh;
    SeededShape(env, d, libraryId, hint);
    var a := Seeded(env, d, libraryId, hint);
    var pins := env.library.components[libraryId].pins;
    assert IsFor(a.design.connections[m], a.id, pins[m - |d.connections|].role);
    FindLast(d.components, Component(a.id, libraryId, [], None));
  }

  /** Seeding never writes a board pin. */
  lemma NewGpioTargetsAreBlank(env: Env, d: Design, libraryId: string, hint: string, m: nat)
    requires libraryId in env.library.components && Ready(env, d, libraryId)
    requires |d.connections| <= m < |Seeded(env, d, libraryId, hint).design.connections|
    ensures
      var t := Seeded(env, d, libraryId, hint).design.connections[m].target;
      t.Gpio? ==> t == Gpio("")
  {
    hide SeedsFresh;
    var first := Appended(env, d, libraryId, hint);
    var entry := env.library.components[libraryId];
    var board := BoardOf(d, env.library);
    var rails := if board.Some? then board.value.rails else [];
    SeedsAnchored(first.id, entry.pins, |entry.pins|, rails, first.design.buses, entry);
    var a := AddWithConnections(env, d, libraryId, hint);
    assert a.design.connections[m].target == first.design.connections[m].target;
  }

  /** A board pin given to the new part was picked by the greedy pass: seeding never writes
      a pin, and the new part has no locks. */
  lemma NewPinIsPicked(env: Env, d: Design, libraryId: string, hint: string, m: nat, p: string)
    requires libraryId in env.library.components && Ready(env, d, libraryId)
    requires
      var a := Seeded(env, d, libraryId, hint);
      && |d.connections| <= m < |a.design.connections| && p != ""
      && Solve(a.design, env.library).design.connections[m].target == Gpio(p)
    ensures PickedPin(Seeded(env, d, libraryId, hint).design, env.library, m, p)
  {
    hide SeedsFresh;
    var a := Seeded(env, d, libraryId, hint);
    var board := BoardOf(a.design, env.library);
    SolveFrame(a.design, env.library);
    NewGpioTargetsAreBlank(env, d, libraryId, hint, m);
    if board.Some? {
      NewPartHasNoLocks(env, d, libraryId, hint, board.value, m);
      SolvedConnection(a.design, env.library, board.value, m);
      var ctx := ContextOf(a.design, env.library, board.value);
      var st := Locked(a.design, ctx);
      if Choice(ctx, st, m) == Bind(Gpio(p)) {
        GpioChoice(ctx, st, m, p);
      }
    }
  }

  lemma NewPinIsClean(env: Env, d: Design, libraryId: string, hint: string, m: nat, p: string)
    requires libraryId in env.library.components && Ready(env, d, libraryId)
    requires
      var a := Seeded(env, d, libraryId, hint);
      && |d.connections| <= m < |a.design.connections| && p != ""
      && Solve(a.design, env.library).design.connections[m].target == Gpio(p)
    ensures
      var a := Seeded(env, d, libraryId, hint);
      && p !in BusPins(a.design.buses) && p !in ConnectionPins(a.design.connections)
      && forall j | 0 <= j < |a.design.connections| && j != m ::
           Solve(a.design, env.library).design.connections[j].target != Gpio(p)
  {
    hide SeedsFresh;
    NewPinIsPicked(env, d, libraryId, hint, m, p);
    PickIsExclusive(Seeded(env, d, libraryId, hint).design, env.library, m, p);
  }

  lemma OldConnectionsStay(env: Env, d: Design, libraryId: string, hint: string)
    requires libraryId in env.library.components && Ready(env, d, libraryId)
    ensures
      var seeded := Seeded(env, d, libraryId, hint).design.connections;
      var r := AddKnown(env, d, libraryId, hint).design.connections;
      && |seeded| == |r| == |d.connections| + |env.library.components[libraryId].pins|
      && forall j :: 0 <= j < |d.connections| ==> r[j] == seeded[j]
  {
    hide SeedsFresh;
    hide Seeded, Inv;
    SeededShape(env, d, libraryId, hint);
    AddingTouchesNothingElse(env, d, libraryId, hint);
  }

  lemma AddKeepsSeededBuses(env: Env, d: Design, libraryId: string, hint: string)
    requires libraryId in env.library.components
    ensures AddKnown(env, d, libraryId, hint).design.buses == Seeded(env, d, libraryId, hint).design.buses
  {
    hide Seeded, Solve;
  }

  /** The new connection of the library pin numbered k. */
  function NewTarget(env: Env, d: Design, libraryId: string, hint: string, k: nat): Target
    requires libraryId in env.library.components
    requires |d.connections| + k < |AddKnown(env, d, libraryId, hint).design.connections|
  {
    AddKnown(env, d, libraryId, hint).design.connections[|d.connections| + k].target
  }

  lemma NewTargetsAreSolved(env: Env, d: Design, libraryId: string, hint: string)
    requires libraryId in env.library.components && Ready(env, d, libraryId)
    ensures
      var pins := env.library.components[libraryId].pins;
      var r := AddKnown(env, d, libraryId, hint).design.connections;
      var solved := Solve(Seeded(env, d, libraryId, hint).design, env.library).design.connections;
      && |r| == |solved| == |d.connections| + |pins|
      && forall l :: 0 <= l < |pins| ==>
           NewTarget(env, d, libraryId, hint, l) == solved[|d.connections| + LastOfRole(pins, l)].target
  {
    hide Ready, AddKnown, Seeded, Solve, LastOfRole;
    OldConnectionsStay(env, d, libraryId, hint);
    SolveFrame(Seeded(env, d, libraryId, hint).design, env.library);
    var pins := env.library.components[libraryId].pins;
    var solved := Solve(Seeded(env, d, libraryId, hint).design, env.library).design.connections;
    forall l | 0 <= l < |pins|
      ensures NewTarget(env, d, libraryId, hint, l) == solved[|d.connections| + LastOfRole(pins, l)].target
    {
      NewTargetIsSolved(env, d, libraryId, hint, l);
    }
  }

  /** A board pin the new part ends up on carries no bus and no connection the design had, and
      of the new connections exactly those of that role. */
  lemma NewPinsExactly(env: Env, d: Design, libraryId: string, hint: string, k: nat)
    requires libraryId in env.library.components && Ready(env, d, libraryId)
    requires k < |env.library.components[libraryId].pins|
    ensures
      var pins, r := env.library.components[libraryId].pins, AddKnown(env, d, libraryId, hint).design;
      && |r.connections| == |d.connections| + |pins|
      && (var t := NewTarget(env, d, libraryId, hint, k);
          t.Gpio? && t.pin != "" ==>
            && t.pin !in BusPins(r.buses)
            && (forall j :: 0 <= j < |d.connections| ==> r.connections[j].target != t)
            && (forall l :: 0 <= l < |pins| ==>
                  (NewTarget(env, d, libraryId, hint, l) == t <==> pins[l].role == pins[k].role)))
  {
    hide Ready, AddKnown, NewTarget, Seeded, Solve, LastOfRole, BusPins, ConnectionPins;
    var pins := env.library.components[libraryId].pins;
    NewTargetsAreSolved(env, d, libraryId, hint);
    OldConnectionsStay(env, d, libraryId, hint);
    AddKeepsSeededBuses(env, d, libraryId, hint);
    var t := NewTarget(env, d, libraryId, hint, k);
    if t.Gpio? && t.pin != "" {
      var last := |d.connections| + LastOfRole(pins, k);
      NewPinIsClean(env, d, libraryId, hint, last, t.pin);
      NotOnOldPins(Seeded(env, d, libraryId, hint).design.connections, t.pin);
      forall l | 0 <= l < |pins|
        ensures NewTarget(env, d, libraryId, hint, l) == t <==> pins[l].role == pins[k].role
      {
        SameLastOfRole(pins, k, l);
      }
    }
  }

  lemma NotOnOldPins(connections: seq<Connection>, p: string)
    requires p != "" && p !in ConnectionPins(connections)
    ensures forall j :: 0 <= j < |connections| ==> connections[j].target != Gpio(p)
  {
    forall j | 0 <= j < |connections| ensures connections[j].target != Gpio(p) {
      assert connections[j] in connections;
    }
  }

  /** So it carries no other connection, old or new, if and only if no other pin of the part
      has the role: the edit copies targets back by role. */
  lemma NewPinIsExclusiveIff(env: Env, d: Design, libraryId: string, hint: string, k: nat)
    requires libraryId in env.library.components && Ready(env, d, libraryId)
    requires k < |env.library.components[libraryId].pins|
    ensures
      var pins, r := env.library.components[libraryId].pins, AddKnown(env, d, libraryId, hint).design.connections;
      && |r| == |d.connections| + |pins|
      && (var t := r[|d.connections| + k].target;
          t.Gpio? && t.pin != "" ==>
            ((forall j :: 0 <= j < |r| && j != |d.connections| + k ==> r[j].target != t)
             <==> (forall l :: 0 <= l < |pins| && l != k ==> pins[l].role != pins[k].role)))
  {
    hide Ready, AddKnown;
    NewPinsExactly(env, d, libraryId, hint, k);
    var pins, r := env.library.components[libraryId].pins, AddKnown(env, d, libraryId, hint).design.connections;
    forall l | 0 <= l < |pins| ensures NewTarget(env, d, libraryId, hint, l) == r[|d.connections| + l].target {
    }
    hide NewTarget, BusPins;
    forall j | |d.connections| <= j < |r|
      ensures r[j].target == NewTarget(env, d, libraryId, hint, j - |d.connections|)
    {
    }
  }
}
