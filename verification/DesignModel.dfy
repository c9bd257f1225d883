/** The design document and the library entries the algorithms read
    (wirestudio/model.py, wirestudio/library). Empty strings are the document's own
    placeholders: a gpio target with pin "" is an unbound pin. */
module DesignModel {
  import opened Options

  datatype Target =
    | Rail(rail: string)
    | Gpio(pin: string)
    | OnBus(busId: string)
    | ExpanderPin(expanderId: string, number: Option<int>, mode: Option<string>, inverted: bool)
    | OnComponent(componentId: string)
    | Net(componentId: string, net: string)

  datatype Lock = Lock(role: string, pin: string)

  datatype ModuleRef = ModuleRef(moduleId: string, instance: string)

  datatype Component = Component(id: string, libraryId: string, locks: seq<Lock>, part: Option<ModuleRef>)

  /** `fields` holds the pin slots and settings, slot name to value. */
  datatype Bus = Bus(id: string, kind: string, fields: map<string, string>)

  datatype Connection = Connection(componentId: string, role: string, target: Target)

  datatype Design = Design(
    board: Option<string>,
    components: seq<Component>,
    buses: seq<Bus>,
    connections: seq<Connection>)

  datatype LibPin = LibPin(
    role: string,
    kind: string,
    driven: bool,
    requiresPwm: bool,
    requiresInterrupt: bool,
    requiresFastGpio: bool,
    parentLibraryId: Option<string>)

  datatype LibComponent = LibComponent(
    id: string,
    category: string,
    pins: seq<LibPin>,
    vccMin: Option<real>,
    vccMax: Option<real>)

  datatype PowerRail = PowerRail(name: string, voltage: real)

  datatype BoardPin = BoardPin(name: string, caps: set<string>)

  /** A dict from pin name to capabilities: insertion order, no name twice. */
  type GpioTable = t: seq<BoardPin> | forall i, j :: 0 <= i < j < |t| ==> t[i].name != t[j].name

  datatype Board = Board(
    chipVariant: string,
    gpio: GpioTable,
    rails: seq<PowerRail>,
    defaultBuses: map<string, map<string, string>>)

  /** A missing key is the library's FileNotFoundError. */
  datatype Library = Library(boards: map<string, Board>, components: map<string, LibComponent>)

  // -------------------------------------------------------------- look-ups

  /** `{c["id"]: c for c in components}.get(id)`: the last entry with an id wins. */
  function FindComponent(components: seq<Component>, id: string): (r: Option<Component>)
    ensures r.Some? ==> r.value in components && r.value.id == id
    ensures r.None? <==> forall c | c in components :: c.id != id
  {
    if components == [] then None
    else
      var last := components[|components| - 1];
      if last.id == id then Some(last) else FindComponent(components[..|components| - 1], id)
  }

  /** The keys of that dict, in its order: first occurrences. */
  function ComponentIds(components: seq<Component>): (ids: seq<string>)
    ensures forall id :: id in ids <==> exists c :: c in components && c.id == id
  {
    if components == [] then []
    else
      var rest := components[..|components| - 1];
      var last := components[|components| - 1];
      assert components == rest + [last];
      var ids := ComponentIds(rest);
      if last.id in ids then ids else ids + [last.id]
  }

  function FindRole(pins: seq<LibPin>, role: string): (r: Option<LibPin>)
    ensures r.Some? ==> r.value in pins && r.value.role == role
    ensures r.None? <==> forall p | p in pins :: p.role != role
  {
    if pins == [] then None
    else if pins[0].role == role then Some(pins[0])
    else FindRole(pins[1..], role)
  }

  function FindLock(locks: seq<Lock>, role: string): Option<string>
  {
    if locks == [] then None
    else if locks[0].role == role then Some(locks[0].pin)
    else FindLock(locks[1..], role)
  }

  /** `gpio_capabilities.get(name, [])`. */
  function CapsOf(gpio: seq<BoardPin>, name: string): set<string>
  {
    if gpio == [] then {}
    else if gpio[0].name == name then gpio[0].caps
    else CapsOf(gpio[1..], name)
  }

  lemma {:induction false} CapsOfEntry(gpio: GpioTable, i: nat)
    requires i < |gpio|
    ensures CapsOf(gpio, gpio[i].name) == gpio[i].caps
  {
    if i > 0 {
      assert gpio[0].name != gpio[i].name;
      CapsOfEntry(gpio[1..], i - 1);
    }
  }

  /** The library entry behind a component instance, when both resolve. */
  function LibraryEntry(library: Library, components: seq<Component>, id: string): Option<LibComponent>
  {
    match FindComponent(components, id)
    case None => None
    case Some(c) => if c.libraryId in library.components then Some(library.components[c.libraryId]) else None
  }

  /** The library pin a connection wires, when component, entry and role resolve. */
  function PinOf(library: Library, components: seq<Component>, c: Connection): Option<LibPin>
  {
    match LibraryEntry(library, components, c.componentId)
    case None => None
    case Some(entry) => FindRole(entry.pins, c.role)
  }
}
