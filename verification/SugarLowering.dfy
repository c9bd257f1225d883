/** `lorawan.gps` / `dht22` / `oled` become the parts, buses and connections they stood for
    (wirestudio/migrate.py:80-172). */
module SugarLowering {
  import opened Options
  import opened Text
  import opened DesignModel
  import PinSolver

  datatype Gps = Gps(rx: string, tx: string, baud: Option<nat>)

  datatype Oled = Oled(enabled: Option<bool>)

  /** The sugar fields; `dht22` carries its data pin. */
  datatype Sugar = Sugar(gps: Option<Gps>, dht22: Option<string>, oled: Option<Oled>)

  datatype Part = Part(id: string, libraryId: string, params: map<string, string>)

  datatype Document = Document(parts: seq<Part>, buses: seq<Bus>, connections: seq<Connection>, sugar: Sugar)

  /** What the lowering reads of the board: rail names, the default I2C pins, the onboard
      display's wiring. */
  datatype Wiring = Wiring(rails: set<string>, i2c: map<string, string>, display: map<string, string>)

  const NO_SUGAR := Sugar(None, None, None)

  // ----------------------------------------------------------- growing lists

  /** The lists being grown, and every id in use. */
  datatype Draft = Draft(parts: seq<Part>, buses: seq<Bus>, connections: seq<Connection>, ids: set<string>)

  function IdsIn(parts: seq<Part>, buses: seq<Bus>): set<string>
  {
    (set p | p in parts :: p.id) + (set b | b in buses :: b.id)
  }

  function Unique(ids: set<string>, base: string): (id: string)
    ensures id !in ids
  {
    if base !in ids then base else Numbered(base, FirstFree(base, ids, 2))
  }

  function AddPart(s: Draft, base: string, libraryId: string, params: map<string, string>): Draft
  {
    var id := Unique(s.ids, base);
    s.(parts := s.parts + [Part(id, libraryId, params)], ids := s.ids + {id})
  }

  function AddBus(s: Draft, base: string, kind: string, fields: map<string, string>): Draft
  {
    var id := Unique(s.ids, base);
    s.(buses := s.buses + [Bus(id, kind, fields)], ids := s.ids + {id})
  }

  function Connect(s: Draft, id: string, role: string, target: Target): Draft
  {
    s.(connections := s.connections + [Connection(id, role, target)])
  }

  function Power(s: Draft, id: string, rails: set<string>): Draft
  {
    var vcc := if "3V3" in rails then Connect(s, id, "VCC", Rail("3V3")) else s;
    if "GND" in rails then Connect(vcc, id, "GND", Rail("GND")) else vcc
  }

  function LastPart(s: Draft): string
    requires s.parts != []
  {
    s.parts[|s.parts| - 1].id
  }

  function LastBus(s: Draft): string
    requires s.buses != []
  {
    s.buses[|s.buses| - 1].id
  }

  // ---------------------------------------------------------- the three blocks

  function LowerGps(s: Draft, gps: Gps, w: Wiring): Draft
  {
    var baud := if gps.baud.Some? then gps.baud.value else 9600;
    var s1 := AddBus(s, "gps_uart", "uart", map["rx" := gps.rx, "tx" := gps.tx, "baud_rate" := Decimal(baud)]);
    var s2 := AddPart(s1, "gps", "uart_gps", map[]);
    var s3 := Power(s2, LastPart(s2), w.rails);
    Connect(Connect(s3, LastPart(s2), "TX", OnBus(LastBus(s1))), LastPart(s2), "RX", OnBus(LastBus(s1)))
  }

  function LowerDht(s: Draft, pin: string, w: Wiring): Draft
  {
    var s1 := AddPart(s, "dht1", "dht", map["model" := "DHT22"]);
    Connect(Power(s1, LastPart(s1), w.rails), LastPart(s1), "DATA", Gpio(pin))
  }

  predicate Set(m: map<string, string>, key: string)
  {
    key in m && m[key] != ""
  }

  /** The display's bus: the first I2C bus there is, or a new one on the board's default pins. */
  function WithDisplayBus(s: Draft, w: Wiring): (Draft, Option<string>)
  {
    match PinSolver.FirstBus(s.buses, "i2c")
    case Some(id) => (s, Some(id))
    case None =>
      if Set(w.i2c, "sda") && Set(w.i2c, "scl") then
        var s1 := AddBus(s, "i2c0", "i2c", map["sda" := w.i2c["sda"], "scl" := w.i2c["scl"]]);
        (s1, Some(LastBus(s1)))
      else (s, None)
  }

  function DisplayParams(w: Wiring): map<string, string>
  {
    var address: map<string, string> :=
      map["address" := if "address" in w.display then w.display["address"] else "0x3C"];
    if Set(w.display, "vext") then address["vext_pin" := w.display["vext"]] else address
  }

  function LowerOled(s: Draft, w: Wiring): Draft
  {
    var (s1, bus) := WithDisplayBus(s, w);
    var s2 := AddPart(s1, "oled", "ssd1306", DisplayParams(w));
    var id := LastPart(s2);
    var s3 := Power(s2, id, w.rails);
    var s4 := if bus.Some? then Connect(Connect(s3, id, "SDA", OnBus(bus.value)), id, "SCL", OnBus(bus.value)) else s3;
    if Set(w.display, "reset") then Connect(s4, id, "RESET", Gpio(w.display["reset"])) else s4
  }

  // -------------------------------------------------------------- the lowering

  predicate Present(d: Document, libraryId: string)
  {
    exists p :: p in d.parts && p.libraryId == libraryId
  }

  predicate WantsGps(d: Document) { d.sugar.gps.Some? && !Present(d, "uart_gps") }

  predicate WantsDht(d: Document) { d.sugar.dht22.Some? && !Present(d, "dht") }

  predicate WantsOled(d: Document)
  {
    d.sugar.oled.Some? && d.sugar.oled.value.enabled != Some(false) && !Present(d, "ssd1306")
  }

  function Start(d: Document): Draft
  {
    Draft(d.parts, d.buses, d.connections, IdsIn(d.parts, d.buses))
  }

  function AfterGps(d: Document, w: Wiring): Draft
  {
    if WantsGps(d) then LowerGps(Start(d), d.sugar.gps.value, w) else Start(d)
  }

  function AfterDht(d: Document, w: Wiring): Draft
  {
    if WantsDht(d) then LowerDht(AfterGps(d, w), d.sugar.dht22.value, w) else AfterGps(d, w)
  }

  function AfterOled(d: Document, w: Wiring): Draft
  {
    if WantsOled(d) then LowerOled(AfterDht(d, w), w) else AfterDht(d, w)
  }

  function Lower(d: Document, w: Wiring): Document
  {
    if d.sugar == NO_SUGAR then d
    else Document(AfterOled(d, w).parts, AfterOled(d, w).buses, AfterOled(d, w).connections, NO_SUGAR)
  }

  // --------------------------------------------------------------- algorithm

  /** The lists and the id set the step's inner functions grow in place. */
  class Lowering {
    var parts: seq<Part>
    var buses: seq<Bus>
    var connections: seq<Connection>
    var ids: set<string>

    ghost function Now(): Draft
      reads this
    {
      Draft(parts, buses, connections, ids)
    }

    constructor (d: Document)
      ensures Now() == Start(d)
    {
      parts, buses, connections, ids := d.parts, d.buses, d.connections, IdsIn(d.parts, d.buses);
    }

    method TakeId(base: string) returns (id: string)
      modifies this`ids
      ensures id == Unique(old(ids), base) && ids == old(ids) + {id}
    {
      id := base;
      if base in ids {
        var n := FindFree(base, ids, 2);
        id := Numbered(base, n);
      }
      ids := ids + {id};
    }

    method Add(base: string, libraryId: string, params: map<string, string>) returns (id: string)
      modifies this
      ensures Now() == AddPart(old(Now()), base, libraryId, params) && id == LastPart(Now())
    {
      id := TakeId(base);
      parts := parts + [Part(id, libraryId, params)];
    }

    method NewBus(base: string, kind: string, fields: map<string, string>) returns (id: string)
      modifies this
      ensures Now() == AddBus(old(Now()), base, kind, fields) && id == LastBus(Now())
    {
      id := TakeId(base);
      buses := buses + [Bus(id, kind, fields)];
    }

    method Wire(id: string, role: string, target: Target)
      modifies this
      ensures Now() == Connect(old(Now()), id, role, target)
    {
      connections := connections + [Connection(id, role, target)];
    }

    method PowerPart(id: string, rails: set<string>)
      modifies this
      ensures Now() == Power(old(Now()), id, rails)
    {
      if "3V3" in rails {
        Wire(id, "VCC", Rail("3V3"));
      }
      if "GND" in rails {
        Wire(id, "GND", Rail("GND"));
      }
    }

    method RunGps(gps: Gps, w: Wiring)
      modifies this
      ensures Now() == LowerGps(old(Now()), gps, w)
    {
      var baud := if gps.baud.Some? then gps.baud.value else 9600;
      var bus := NewBus("gps_uart", "uart", map["rx" := gps.rx, "tx" := gps.tx, "baud_rate" := Decimal(baud)]);
      var id := Add("gps", "uart_gps", map[]);
      PowerPart(id, w.rails);
      Wire(id, "TX", OnBus(bus));
      Wire(id, "RX", OnBus(bus));
    }

    method RunDht(pin: string, w: Wiring)
      modifies this
      ensures Now() == LowerDht(old(Now()), pin, w)
    {
      var id := Add("dht1", "dht", map["model" := "DHT22"]);
      PowerPart(id, w.rails);
      Wire(id, "DATA", Gpio(pin));
    }

    method RunOled(w: Wiring)
      modifies this
      ensures Now() == LowerOled(old(Now()), w)
    {
      var bus := PinSolver.FirstBus(buses, "i2c");
      if bus.None? && Set(w.i2c, "sda") && Set(w.i2c, "scl") {
        var added := NewBus("i2c0", "i2c", map["sda" := w.i2c["sda"], "scl" := w.i2c["scl"]]);
        bus := Some(added);
      }
      var id := Add("oled", "ssd1306", DisplayParams(w));
      PowerPart(id, w.rails);
      if bus.Some? {
        Wire(id, "SDA", OnBus(bus.value));
        Wire(id, "SCL", OnBus(bus.value));
      }
      if Set(w.display, "reset") {
        Wire(id, "RESET", Gpio(w.display["reset"]));
      }
    }
  }

  method LowerSugar(d: Document, w: Wiring) returns (out: Document)
    ensures out == Lower(d, w)
  {
    if d.sugar == NO_SUGAR {
      return d;
    }
    var run := new Lowering(d);
    if WantsGps(d) {
      run.RunGps(d.sugar.gps.value, w);
    }
    if WantsDht(d) {
      run.RunDht(d.sugar.dht22.value, w);
    }
    if WantsOled(d) {
      run.RunOled(w);
    }
    return Document(run.parts, run.buses, run.connections, NO_SUGAR);
  }

  // ------------------------------------------------------------------ proofs

  predicate HasPart(parts: seq<Part>, id: string)
  {
    exists p :: p in parts && p.id == id
  }

  predicate HasBus(buses: seq<Bus>, id: string)
  {
    exists b :: b in buses && b.id == id
  }

  /** The connection names a part of the draft, and its bus, if it has one, too. */
  predicate Wired(s: Draft, c: Connection)
  {
    HasPart(s.parts, c.componentId) && (c.target.OnBus? ==> HasBus(s.buses, c.target.busId))
  }

  /** t is s with entries appended: every new id was unused in s and is used once in t, every
      new connection is wired to what t holds. */
  ghost predicate Appends(s: Draft, t: Draft)
  {
    && s.parts <= t.parts && s.buses <= t.buses && s.connections <= t.connections && s.ids <= t.ids
    && (forall i :: |s.parts| <= i < |t.parts| ==> t.parts[i].id !in s.ids && t.parts[i].id in t.ids)
    && (forall i :: |s.buses| <= i < |t.buses| ==> t.buses[i].id !in s.ids && t.buses[i].id in t.ids)
    && (forall i, j :: |s.parts| <= i < j < |t.parts| ==> t.parts[i].id != t.parts[j].id)
    && (forall i, j :: |s.buses| <= i < j < |t.buses| ==> t.buses[i].id != t.buses[j].id)
    && (forall i, j :: |s.parts| <= i < |t.parts| && |s.buses| <= j < |t.buses| ==> t.parts[i].id != t.buses[j].id)
    && (forall k :: |s.connections| <= k < |t.connections| ==> Wired(t, t.connections[k]))
  }

  lemma AppendsTwice(s: Draft, t: Draft, u: Draft)
    requires Appends(s, t) && Appends(t, u)
    ensures Appends(s, u)
    ensures s.parts <= u.parts && s.buses <= u.buses && s.connections <= u.connections
  {
    forall k | |s.connections| <= k < |u.connections| ensures Wired(u, u.connections[k]) {
      if k < |t.connections| {
        assert u.connections[k] == t.connections[k] && Wired(t, t.connections[k]);
        assert forall p | p in t.parts :: p in u.parts;
        assert forall b | b in t.buses :: b in u.buses;
      }
    }
  }

  lemma AddPartAppends(s: Draft, base: string, libraryId: string, params: map<string, string>)
    ensures Appends(s, AddPart(s, base, libraryId, params))
    ensures
      var t := AddPart(s, base, libraryId, params);
      HasPart(t.parts, LastPart(t)) && t.buses == s.buses
  {
    var t := AddPart(s, base, libraryId, params);
    assert t.parts[|s.parts|] in t.parts;
  }

  lemma AddBusAppends(s: Draft, base: string, kind: string, fields: map<string, string>)
    ensures Appends(s, AddBus(s, base, kind, fields))
    ensures
      var t := AddBus(s, base, kind, fields);
      HasBus(t.buses, LastBus(t)) && t.parts == s.parts
  {
    var t := AddBus(s, base, kind, fields);
    assert t.buses[|s.buses|] in t.buses;
  }

  lemma ConnectAppends(s: Draft, id: string, role: string, target: Target)
    requires HasPart(s.parts, id) && (target.OnBus? ==> HasBus(s.buses, target.busId))
    ensures Appends(s, Connect(s, id, role, target))
  {
  }

  lemma PowerAppends(s: Draft, id: string, rails: set<string>)
    requires HasPart(s.parts, id)
    ensures Appends(s, Power(s, id, rails))
    ensures Power(s, id, rails).parts == s.parts && Power(s, id, rails).buses == s.buses
  {
    var vcc := if "3V3" in rails then Connect(s, id, "VCC", Rail("3V3")) else s;
    ConnectAppends(s, id, "VCC", Rail("3V3"));
    ConnectAppends(vcc, id, "GND", Rail("GND"));
    AppendsTwice(s, vcc, Power(s, id, rails));
  }

  predicate OnePartMore(s: Draft, t: Draft, libraryId: string)
  {
    |t.parts| == |s.parts| + 1 && t.parts[..|s.parts|] == s.parts && t.parts[|s.parts|].libraryId == libraryId
  }

  lemma GpsAppends(s: Draft, gps: Gps, w: Wiring)
    ensures Appends(s, LowerGps(s, gps, w))
    ensures OnePartMore(s, LowerGps(s, gps, w), "uart_gps")
  {
    var baud := if gps.baud.Some? then gps.baud.value else 9600;
    var fields := map["rx" := gps.rx, "tx" := gps.tx, "baud_rate" := Decimal(baud)];
    var s1 := AddBus(s, "gps_uart", "uart", fields);
    AddBusAppends(s, "gps_uart", "uart", fields);
    var s2 := AddPart(s1, "gps", "uart_gps", map[]);
    AddPartAppends(s1, "gps", "uart_gps", map[]);
    var s3 := Power(s2, LastPart(s2), w.rails);
    PowerAppends(s2, LastPart(s2), w.rails);
    var s4 := Connect(s3, LastPart(s2), "TX", OnBus(LastBus(s1)));
    ConnectAppends(s3, LastPart(s2), "TX", OnBus(LastBus(s1)));
    ConnectAppends(s4, LastPart(s2), "RX", OnBus(LastBus(s1)));
    AppendsTwice(s, s1, s2);
    AppendsTwice(s, s2, s3);
    AppendsTwice(s, s3, s4);
    AppendsTwice(s, s4, LowerGps(s, gps, w));
  }

  lemma DhtAppends(s: Draft, pin: string, w: Wiring)
    ensures Appends(s, LowerDht(s, pin, w))
    ensures OnePartMore(s, LowerDht(s, pin, w), "dht")
  {
    var s1 := AddPart(s, "dht1", "dht", map["model" := "DHT22"]);
    AddPartAppends(s, "dht1", "dht", map["model" := "DHT22"]);
    var s2 := Power(s1, LastPart(s1), w.rails);
    PowerAppends(s1, LastPart(s1), w.rails);
    ConnectAppends(s2, LastPart(s1), "DATA", Gpio(pin));
    AppendsTwice(s, s1, s2);
    AppendsTwice(s, s2, LowerDht(s, pin, w));
  }

  lemma DisplayBusAppends(s: Draft, w: Wiring)
    ensures
      var (t, bus) := WithDisplayBus(s, w);
      Appends(s, t) && t.parts == s.parts && (bus.Some? ==> HasBus(t.buses, bus.value))
  {
    if Set(w.i2c, "sda") && Set(w.i2c, "scl") {
      AddBusAppends(s, "i2c0", "i2c", map["sda" := w.i2c["sda"], "scl" := w.i2c["scl"]]);
    }
  }

  lemma OledAppends(s: Draft, w: Wiring)
    ensures Appends(s, LowerOled(s, w))
    ensures OnePartMore(s, LowerOled(s, w), "ssd1306")
  {
    var (s1, bus) := WithDisplayBus(s, w);
    DisplayBusAppends(s, w);
    var s2 := AddPart(s1, "oled", "ssd1306", DisplayParams(w));
    AddPartAppends(s1, "oled", "ssd1306", DisplayParams(w));
    var id := LastPart(s2);
    var s3 := Power(s2, id, w.rails);
    PowerAppends(s2, id, w.rails);
    AppendsTwice(s, s1, s2);
    AppendsTwice(s, s2, s3);
    var s4 := s3;
    if bus.Some? {
      var half := Connect(s3, id, "SDA", OnBus(bus.value));
      s4 := Connect(half, id, "SCL", OnBus(bus.value));
      ConnectAppends(s3, id, "SDA", OnBus(bus.value));
      ConnectAppends(half, id, "SCL", OnBus(bus.value));
      AppendsTwice(s, s3, half);
      AppendsTwice(s, half, s4);
    }
    if Set(w.display, "reset") {
      ConnectAppends(s4, id, "RESET", Gpio(w.display["reset"]));
      AppendsTwice(s, s4, LowerOled(s, w));
    }
  }

  function Kinds(parts: seq<Part>): seq<string>
  {
    seq(|parts|, i requires 0 <= i < |parts| => parts[i].libraryId)
  }

  function WantedKinds(d: Document): seq<string>
  {
    (if WantsGps(d) then ["uart_gps"] else [])
    + (if WantsDht(d) then ["dht"] else [])
    + (if WantsOled(d) then ["ssd1306"] else [])
  }

  lemma KindsOfOneMore(s: Draft, t: Draft, libraryId: string)
    requires OnePartMore(s, t, libraryId)
    ensures Kinds(t.parts) == Kinds(s.parts) + [libraryId]
  {
  }

  lemma StagesAppend(d: Document, w: Wiring)
    ensures Appends(Start(d), AfterGps(d, w))
    ensures Kinds(AfterGps(d, w).parts) == Kinds(d.parts) + if WantsGps(d) then ["uart_gps"] else []
    ensures Appends(AfterGps(d, w), AfterDht(d, w))
    ensures Kinds(AfterDht(d, w).parts) == Kinds(AfterGps(d, w).parts) + if WantsDht(d) then ["dht"] else []
    ensures Appends(AfterDht(d, w), AfterOled(d, w))
    ensures Kinds(AfterOled(d, w).parts) == Kinds(AfterDht(d, w).parts) + if WantsOled(d) then ["ssd1306"] else []
  {
    if WantsGps(d) {
      GpsAppends(Start(d), d.sugar.gps.value, w);
      KindsOfOneMore(Start(d), AfterGps(d, w), "uart_gps");
    }
    if WantsDht(d) {
      DhtAppends(AfterGps(d, w), d.sugar.dht22.value, w);
      KindsOfOneMore(AfterGps(d, w), AfterDht(d, w), "dht");
    }
    if WantsOled(d) {
      OledAppends(AfterDht(d, w), w);
      KindsOfOneMore(AfterDht(d, w), AfterOled(d, w), "ssd1306");
    }
    hide LowerGps, LowerDht, LowerOled, Kinds, OnePartMore;
  }

  /** Lowering only appends; the parts it appends are exactly the wanted kinds, one each, and
      none whose kind the design already has; afterwards no sugar is left. */
  lemma LoweringAppends(d: Document, w: Wiring)
    ensures Lower(d, w).sugar == NO_SUGAR
    ensures d.sugar != NO_SUGAR ==> Appends(Start(d), AfterOled(d, w))
    ensures d.parts <= Lower(d, w).parts && d.buses <= Lower(d, w).buses && d.connections <= Lower(d, w).connections
    ensures Kinds(Lower(d, w).parts) == Kinds(d.parts) + WantedKinds(d)
  {
    hide AfterGps, AfterDht, AfterOled, Kinds, Appends, WantsGps, WantsDht, WantsOled;
    StagesAppend(d, w);
    AppendsTwice(Start(d), AfterGps(d, w), AfterDht(d, w));
    AppendsTwice(Start(d), AfterDht(d, w), AfterOled(d, w));
    if d.sugar == NO_SUGAR {
      assert !WantsGps(d) && !WantsDht(d) && !WantsOled(d) by {
        NothingWanted(d);
      }
    }
  }

  lemma NothingWanted(d: Document)
    requires d.sugar == NO_SUGAR
    ensures !WantsGps(d) && !WantsDht(d) && !WantsOled(d)
  {
  }

  /** The 0.3 -> 1.0 step runs the lowering again on what 0.1 -> 0.2 produced. */
  lemma LoweringTwice(d: Document, w: Wiring, w2: Wiring)
    ensures Lower(Lower(d, w), w2) == Lower(d, w)
  {
    LoweringAppends(d, w);
  }
}
