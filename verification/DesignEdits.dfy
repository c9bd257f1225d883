/** Design edits (wirestudio/designs/seed.py, wirestudio/agent/tools.py:634-690, 727-772,
    830-848): what each edit does to the document, as a function and as the in-place code. */
module DesignEdits {
  import opened Options
  import opened Text
  import opened DesignModel
  import opened BusIds
  import opened PinSolver

  /** What the edits ask of the outside: the library, the order a set is iterated in, and
      whether ESPHome refuses an id in a design. */
  datatype Env = Env(library: Library, order: set<string> -> seq<string>, refuses: (Design, string) -> bool)

  ghost predicate Enumerates(order: set<string> -> seq<string>)
  {
    forall s: set<string> ::
      && (forall x :: x in order(s) <==> x in s)
      && (forall i, j :: 0 <= i < j < |order(s)| ==> order(s)[i] != order(s)[j])
  }

  // ---------------------------------------------------------- default targets

  function LowestRail(rails: seq<PowerRail>, entry: LibComponent): (r: Option<PowerRail>)
    ensures r.Some? ==> r.value in rails && InBand(r.value, entry)
    ensures r.Some? ==> forall x | x in rails && InBand(x, entry) :: r.value.voltage <= x.voltage
    ensures r.None? ==> forall x | x in rails :: !InBand(x, entry)
  {
    if rails == [] then None
    else
      var rest := LowestRail(rails[1..], entry);
      if InBand(rails[0], entry) && (rest.None? || rails[0].voltage <= rest.value.voltage) then Some(rails[0])
      else rest
  }

  predicate InBand(r: PowerRail, entry: LibComponent)
  {
    && r.voltage > 0.0
    && (entry.vccMin.None? || r.voltage >= entry.vccMin.value)
    && (entry.vccMax.None? || r.voltage <= entry.vccMax.value)
  }

  function FirstRail(rails: seq<PowerRail>, p: PowerRail -> bool): Option<PowerRail>
  {
    if rails == [] then None else if p(rails[0]) then Some(rails[0]) else FirstRail(rails[1..], p)
  }

  predicate Is3V3(r: PowerRail) { r.name == "3V3" }

  predicate IsLive(r: PowerRail) { r.voltage > 0.0 }

  predicate IsZero(r: PowerRail) { r.voltage == 0.0 }

  function PowerRailFor(rails: seq<PowerRail>, entry: LibComponent): string
  {
    var lowest := LowestRail(rails, entry);
    var named := FirstRail(rails, Is3V3);
    var live := FirstRail(rails, IsLive);
    if lowest.Some? then lowest.value.name
    else if named.Some? then named.value.name
    else if live.Some? then live.value.name
    else if rails != [] then rails[0].name
    else "3V3"
  }

  function LowerChar(c: char): char
  {
    if 'A' <= c <= 'Z' then (c as int + 32) as char else c
  }

  function LowerCase(s: string): string
  {
    seq(|s|, i requires 0 <= i < |s| => LowerChar(s[i]))
  }

  predicate NamesGround(r: PowerRail)
  {
    Contains(LowerCase(r.name), "gnd")
  }

  function GroundRailFor(rails: seq<PowerRail>): string
  {
    var zero := FirstRail(rails, IsZero);
    var named := FirstRail(rails, NamesGround);
    if zero.Some? && zero.value.name != "" then zero.value.name
    else if named.Some? then named.value.name
    else "GND"
  }

  function DefaultTarget(pin: LibPin, rails: seq<PowerRail>, buses: seq<Bus>, entry: LibComponent): Target
  {
    if pin.kind == "power" then Rail(PowerRailFor(rails, entry))
    else if pin.kind == "ground" then Rail(GroundRailFor(rails))
    else if pin.kind == "passthrough" then Net("", "")
    else
      match BusTypeForPin(pin.kind)
      case Some(kind) =>
        (match FirstBus(buses, kind)
         case Some(id) => OnBus(id)
         case None => OnBus(""))
      case None => Gpio("")
  }

  // -------------------------------------------------------------------- buses

  function NeededBusTypes(pins: seq<LibPin>): set<string>
  {
    set p | p in pins && BusTypeForPin(p.kind).Some? :: BusTypeForPin(p.kind).value
  }

  function BusIdSet(buses: seq<Bus>): set<string>
  {
    set b | b in buses :: b.id
  }

  function BusKinds(buses: seq<Bus>): set<string>
  {
    set b | b in buses :: b.kind
  }

  /** `{type}_1` .. `{type}_999`, the first that is free, else `{type}_{number of buses}`. */
  function NextBusId(buses: seq<Bus>, kind: string): string
  {
    var n := FirstFree(kind + "_", BusIdSet(buses), 1);
    if n < 1000 then Numbered(kind + "_", n) else Numbered(kind + "_", |buses|)
  }

  method FindBusId(buses: seq<Bus>, kind: string) returns (id: string)
    ensures id == NextBusId(buses, kind)
  {
    var used := BusIdSet(buses);
    for n := 1 to 1000
      invariant forall k :: 1 <= k < n ==> Numbered(kind + "_", k) in used
    {
      id := Numbered(kind + "_", n);
      if id !in used {
        return;
      }
    }
    id := Numbered(kind + "_", |buses|);
  }

  function DefaultFields(board: Board, kind: string): map<string, string>
  {
    if kind in board.defaultBuses then board.defaultBuses[kind] else map[]
  }

  /** The first n missing bus types, added in order. */
  function WithBuses(buses: seq<Bus>, kinds: seq<string>, n: nat, board: Board): seq<Bus>
    requires n <= |kinds|
  {
    if n == 0 then buses
    else
      var before := WithBuses(buses, kinds, n - 1, board);
      before + [Bus(NextBusId(before, kinds[n - 1]), kinds[n - 1], DefaultFields(board, kinds[n - 1]))]
  }

  function PrepareBuses(env: Env, buses: seq<Bus>, entry: LibComponent, board: Board): seq<Bus>
  {
    var kinds := env.order(NeededBusTypes(entry.pins) - BusKinds(buses));
    WithBuses(buses, kinds, |kinds|, board)
  }

  // ------------------------------------------------------------ add a component

  function Seeds(id: string, pins: seq<LibPin>, n: nat, rails: seq<PowerRail>, buses: seq<Bus>, entry: LibComponent)
    : (r: seq<Connection>)
    requires n <= |pins|
    ensures |r| == n
  {
    if n == 0 then []
    else
      Seeds(id, pins, n - 1, rails, buses, entry)
      + [Connection(id, pins[n - 1].role, DefaultTarget(pins[n - 1], rails, buses, entry))]
  }

  function IdSet(components: seq<Component>): set<string>
  {
    set c | c in components :: c.id
  }

  predicate IsAlnum(c: char)
  {
    '0' <= c <= '9' || 'a' <= c <= 'z' || 'A' <= c <= 'Z'
  }

  function Sanitized(libraryId: string): string
  {
    seq(|libraryId|, i requires 0 <= i < |libraryId| => if IsAlnum(libraryId[i]) then libraryId[i] else '_')
  }

  function InstanceId(used: set<string>, libraryId: string, hint: string): (id: string)
    ensures id !in used
  {
    if hint != "" && hint !in used then hint
    else Numbered(Sanitized(libraryId) + "_", FirstFree(Sanitized(libraryId) + "_", used, 1))
  }

  function SuffixedId(used: set<string>, id: string): (r: string)
    ensures r !in used
  {
    Numbered(id + "_", FirstFree(id + "_", used, 1))
  }

  /** Component and connections under the new id. */
  function RenameInstance(d: Design, from: string, id: string): Design
  {
    d.(components := seq(|d.components|, i requires 0 <= i < |d.components| =>
         if d.components[i].id == from then d.components[i].(id := id) else d.components[i]),
       connections := seq(|d.connections|, i requires 0 <= i < |d.connections| =>
         if d.connections[i].componentId == from then d.connections[i].(componentId := id) else d.connections[i]))
  }

  datatype Added = Added(id: string, design: Design)

  /** Component, missing buses and one connection per library pin, before any renaming. */
  function Appended(env: Env, d: Design, libraryId: string, hint: string): Added
    requires libraryId in env.library.components
  {
    var entry := env.library.components[libraryId];
    var id := InstanceId(IdSet(d.components), libraryId, hint);
    var board := BoardOf(d, env.library);
    var rails := if board.Some? then board.value.rails else [];
    var buses := if board.Some? then PrepareBuses(env, d.buses, entry, board.value) else d.buses;
    Added(id, d.(components := d.components + [Component(id, libraryId, [], None)],
                 buses := buses,
                 connections := d.connections + Seeds(id, entry.pins, |entry.pins|, rails, buses, entry)))
  }

  /** `add_component_with_connections`. */
  function AddWithConnections(env: Env, d: Design, libraryId: string, hint: string): Added
    requires libraryId in env.library.components
  {
    var a := Appended(env, d, libraryId, hint);
    if env.refuses(a.design, a.id) then
      var id := SuffixedId(IdSet(d.components), a.id);
      Added(id, RenameInstance(a.design, a.id, id))
    else a
  }

  const BUS_PIN_GROUPS: map<string, seq<set<string>>> := map[
    "i2c" := [{"sda"}, {"scl"}],
    "spi" := [{"clk"}, {"miso", "mosi"}],
    "uart" := [{"rx", "tx"}],
    "1wire" := [{"pin"}],
    "i2s" := [{"lrclk"}, {"bclk"}]]

  predicate HasPin(b: Bus, group: set<string>)
  {
    exists slot :: slot in group && slot in b.fields && b.fields[slot] != ""
  }

  predicate MissingPins(b: Bus)
  {
    b.kind in BUS_PIN_GROUPS && exists g :: g in BUS_PIN_GROUPS[b.kind] && !HasPin(b, g)
  }

  /** Buses the seeding added and could not give pins. */
  function EmptyBuses(before: set<string>, buses: seq<Bus>): set<string>
  {
    set b | b in buses && b.id !in before && MissingPins(b) :: b.id
  }

  function KeepBuses(buses: seq<Bus>, drop: set<string>): seq<Bus>
  {
    if buses == [] then []
    else
      var rest := KeepBuses(buses[..|buses| - 1], drop);
      if buses[|buses| - 1].id in drop then rest else rest + [buses[|buses| - 1]]
  }

  function Detach(c: Connection, drop: set<string>): Connection
  {
    if c.target.OnBus? && c.target.busId in drop then c.(target := OnBus("")) else c
  }

  function WithoutBuses(d: Design, drop: set<string>): Design
  {
    d.(buses := KeepBuses(d.buses, drop),
       connections := seq(|d.connections|, i requires 0 <= i < |d.connections| => Detach(d.connections[i], drop)))
  }

  /** `{c["pin_role"]: c["target"] for c in solved if c.component_id == id}.get(role)`. */
  function TargetOf(connections: seq<Connection>, id: string, role: string): Option<Target>
  {
    if connections == [] then None
    else
      var last := connections[|connections| - 1];
      if last.componentId == id && last.role == role then Some(last.target)
      else TargetOf(connections[..|connections| - 1], id, role)
  }

  function Adopt(c: Connection, id: string, solved: seq<Connection>): Connection
  {
    if c.componentId == id && TargetOf(solved, id, c.role).Some?
    then c.(target := TargetOf(solved, id, c.role).value) else c
  }

  function Adopted(d: Design, id: string, solved: seq<Connection>): Design
  {
    d.(connections := seq(|d.connections|, i requires 0 <= i < |d.connections| => Adopt(d.connections[i], id, solved)))
  }

  /** The design `_run_add_component` hands to the solver. */
  function Seeded(env: Env, d: Design, libraryId: string, hint: string): Added
    requires libraryId in env.library.components
  {
    var a := AddWithConnections(env, d, libraryId, hint);
    Added(a.id, WithoutBuses(a.design, EmptyBuses(BusIdSet(d.buses), a.design.buses)))
  }

  /** `_run_add_component` with a part the library has. */
  function AddKnown(env: Env, d: Design, libraryId: string, hint: string): Added
    requires libraryId in env.library.components
  {
    var a := Seeded(env, d, libraryId, hint);
    Added(a.id, Adopted(a.design, a.id, Solve(a.design, env.library).design.connections))
  }

  /** An unknown library id raises and changes nothing. */
  function AddComponent(env: Env, d: Design, libraryId: string, hint: string): Option<Added>
  {
    if libraryId !in env.library.components then None else Some(AddKnown(env, d, libraryId, hint))
  }

  // ------------------------------------------------------------- other edits

  datatype ModulePart = ModulePart(libraryId: string, hint: string)

  /** Stamp the first component with the id. */
  function Stamp(components: seq<Component>, id: string, m: ModuleRef): seq<Component>
  {
    if components == [] then []
    else if components[0].id == id then [components[0].(part := Some(m))] + components[1..]
    else [components[0]] + Stamp(components[1..], id, m)
  }

  /** Add one part of a module and stamp it; a part missing from the library raises. */
  function InsertPart(env: Env, d: Design, part: ModulePart, m: ModuleRef): (Design, bool)
  {
    if part.libraryId !in env.library.components then (d, false)
    else
      var a := AddWithConnections(env, d, part.libraryId, part.hint);
      (a.design.(components := Stamp(a.design.components, a.id, m)), true)
  }

  /** Insert the first n parts of a module, stopping where one raises; the parts before it stay
      in the document. */
  function InsertParts(env: Env, d: Design, parts: seq<ModulePart>, n: nat, m: ModuleRef): (Design, bool)
    requires n <= |parts|
  {
    if n == 0 then (d, true)
    else
      var (before, ok) := InsertParts(env, d, parts, n - 1, m);
      if ok then InsertPart(env, before, parts[n - 1], m) else (before, false)
  }

  function KeepComponents(components: seq<Component>, id: string): seq<Component>
  {
    if components == [] then []
    else
      var rest := KeepComponents(components[..|components| - 1], id);
      if components[|components| - 1].id == id then rest else rest + [components[|components| - 1]]
  }

  function KeepConnections(connections: seq<Connection>, id: string): seq<Connection>
  {
    if connections == [] then []
    else
      var rest := KeepConnections(connections[..|connections| - 1], id);
      if connections[|connections| - 1].componentId == id then rest else rest + [connections[|connections| - 1]]
  }

  function RemoveComponent(d: Design, id: string): Option<Design>
  {
    if id !in IdSet(d.components) then None
    else Some(d.(components := KeepComponents(d.components, id), connections := KeepConnections(d.connections, id)))
  }

  function PinsOf(fields: map<string, string>): set<string>
  {
    set slot | slot in BUS_PIN_SLOTS && slot in fields && fields[slot] != "" :: fields[slot]
  }

  /** `_run_add_bus`: None is a refusal, which leaves the document alone. */
  function AddBusTo(d: Design, library: Library, id: string, kind: string, fields: map<string, string>): Option<Design>
  {
    if id in RESERVED_BUS_IDS || id in BusIdSet(d.buses) then None
    else
      var board := BoardOf(d, library);
      var defaults: map<string, string> :=
        if board.Some? && kind != "" then DefaultFields(board.value, kind) else map[];
      var bus := Bus(id, kind, defaults + fields);
      if exists other :: other in d.buses && PinsOf(other.fields) * PinsOf(bus.fields) != {} then None
      else Some(d.(buses := d.buses + [bus]))
  }

  // ---------------------------------------------------------------- the edits

  datatype Edit =
    | Add(libraryId: string, hint: string)
    | Insert(moduleRef: ModuleRef, parts: seq<ModulePart>)
    | Remove(id: string)
    | NewBus(id: string, kind: string, fields: map<string, string>)
    | SolveAll

  /** The document after an edit; refused edits leave it as it was. */
  function Apply(env: Env, d: Design, e: Edit): Design
  {
    match e
    case Add(libraryId, hint) =>
      var a := AddComponent(env, d, libraryId, hint);
      if a.Some? then a.value.design else d
    case Insert(m, parts) => InsertParts(env, d, parts, |parts|, m).0
    case Remove(id) =>
      var r := RemoveComponent(d, id);
      if r.Some? then r.value else d
    case NewBus(id, kind, fields) =>
      var r := AddBusTo(d, env.library, id, kind, fields);
      if r.Some? then r.value else d
    case SolveAll => Solve(d, env.library).design
  }

  function Run(env: Env, d: Design, edits: seq<Edit>): Design
    decreases |edits|
  {
    if edits == [] then d else Apply(env, Run(env, d, edits[..|edits| - 1]), edits[|edits| - 1])
  }
}
