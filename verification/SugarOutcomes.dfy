/** What the LoRaWAN sugar becomes, entry by entry (wirestudio/migrate.py:100-172). */
module SugarOutcomes {
  import opened Options
  import opened Text
  import opened DesignModel
  import PinSolver
  import SolverDecisions
  import opened SugarLowering

  /** The base name when it is unused, else the first unused `{base}n` from n = 2. */
  ghost predicate NamedFrom(id: string, base: string, ids: set<string>)
  {
    if base !in ids then id == base
    else exists n: nat ::
      2 <= n && id == Numbered(base, n) && id !in ids && forall m: nat :: 2 <= m < n ==> Numbered(base, m) in ids
  }

  lemma UniqueIsNamed(ids: set<string>, base: string)
    ensures NamedFrom(Unique(ids, base), base, ids)
  {
    hide Numbered;
    assert IsFirstFree(base, ids, 2, FirstFree(base, ids, 2));
  }

  /** A lowered part's supply connections: the rails called 3V3 and GND, where the board has them. */
  function SupplyWires(id: string, rails: set<string>): seq<Connection>
  {
    (if "3V3" in rails then [Connection(id, "VCC", Rail("3V3"))] else [])
    + (if "GND" in rails then [Connection(id, "GND", Rail("GND"))] else [])
  }

  lemma PowerWires(s: Draft, id: string, rails: set<string>)
    ensures Power(s, id, rails) == s.(connections := s.connections + SupplyWires(id, rails))
  {
  }

  /** A GPS: a UART bus on its two pins at its baud rate or 9600, the part, its supply, and both
      its data pins on that bus. */
  lemma GpsExactly(s: Draft, gps: Gps, w: Wiring) returns (id: string, bus: string)
    ensures NamedFrom(bus, "gps_uart", s.ids) && NamedFrom(id, "gps", s.ids + {bus})
    ensures
      var fields := map["rx" := gps.rx, "tx" := gps.tx,
                        "baud_rate" := Decimal(if gps.baud.Some? then gps.baud.value else 9600)];
      LowerGps(s, gps, w) == Draft(
        s.parts + [Part(id, "uart_gps", map[])],
        s.buses + [Bus(bus, "uart", fields)],
        s.connections + SupplyWires(id, w.rails) + [Connection(id, "TX", OnBus(bus)), Connection(id, "RX", OnBus(bus))],
        s.ids + {bus} + {id})
  {
    hide Power, SupplyWires, Unique, NamedFrom;
    bus := Unique(s.ids, "gps_uart");
    UniqueIsNamed(s.ids, "gps_uart");
    id := Unique(s.ids + {bus}, "gps");
    UniqueIsNamed(s.ids + {bus}, "gps");
    var baud := if gps.baud.Some? then gps.baud.value else 9600;
    var s1 := AddBus(s, "gps_uart", "uart", map["rx" := gps.rx, "tx" := gps.tx, "baud_rate" := Decimal(baud)]);
    var s2 := AddPart(s1, "gps", "uart_gps", map[]);
    assert LastBus(s1) == bus && LastPart(s2) == id;
    PowerWires(s2, id, w.rails);
    TwoMore(s2.connections + SupplyWires(id, w.rails),
            Connection(id, "TX", OnBus(bus)), Connection(id, "RX", OnBus(bus)));
  }

  lemma TwoMore(wires: seq<Connection>, a: Connection, b: Connection)
    ensures (wires + [a]) + [b] == wires + [a, b]
  {
  }

  /** A DHT22: the part, its supply, and its data pin on the pin given. */
  lemma DhtExactly(s: Draft, pin: string, w: Wiring) returns (id: string)
    ensures NamedFrom(id, "dht1", s.ids)
    ensures LowerDht(s, pin, w) == Draft(
      s.parts + [Part(id, "dht", map["model" := "DHT22"])], s.buses,
      s.connections + SupplyWires(id, w.rails) + [Connection(id, "DATA", Gpio(pin))],
      s.ids + {id})
  {
    hide Power, SupplyWires, Unique, NamedFrom;
    id := Unique(s.ids, "dht1");
    UniqueIsNamed(s.ids, "dht1");
    var s1 := AddPart(s, "dht1", "dht", map["model" := "DHT22"]);
    assert LastPart(s1) == id;
    PowerWires(s1, id, w.rails);
  }

  predicate Given(m: map<string, string>, key: string)
  {
    key in m && m[key] != ""
  }

  /** The display's bus: the first I2C bus there is, else a new one on the board's default pins
      when it has both, else none. */
  ghost predicate DisplayBus(s: Draft, w: Wiring, bus: Option<string>, added: seq<Bus>)
  {
    if exists k :: SolverDecisions.FirstBusAt(s.buses, k, "i2c") then
      && added == []
      && exists k :: SolverDecisions.FirstBusAt(s.buses, k, "i2c") && bus == Some(s.buses[k].id)
    else if Given(w.i2c, "sda") && Given(w.i2c, "scl") then
      && bus.Some? && NamedFrom(bus.value, "i2c0", s.ids)
      && added == [Bus(bus.value, "i2c", map["sda" := w.i2c["sda"], "scl" := w.i2c["scl"]])]
    else bus == None && added == []
  }

  lemma DisplayBusExactly(s: Draft, w: Wiring) returns (bus: Option<string>, added: seq<Bus>)
    ensures DisplayBus(s, w, bus, added)
    ensures WithDisplayBus(s, w)
      == (s.(buses := s.buses + added, ids := s.ids + set b | b in added :: b.id), bus)
  {
    hide Unique, NamedFrom;
    SolverDecisions.BusIsFirst(s.buses, "i2c");
    bus := WithDisplayBus(s, w).1;
    added := [];
    assert s.ids + (set b | b in added :: b.id) == s.ids && s.buses + added == s.buses;
    if PinSolver.FirstBus(s.buses, "i2c").None? && Given(w.i2c, "sda") && Given(w.i2c, "scl") {
      var id := Unique(s.ids, "i2c0");
      UniqueIsNamed(s.ids, "i2c0");
      added := [Bus(id, "i2c", map["sda" := w.i2c["sda"], "scl" := w.i2c["scl"]])];
      assert (set b | b in added :: b.id) == {id} by {
        assert added[0] in added;
      }
    }
  }

  /** The display's address, 0x3C unless the board says otherwise, and the pin that switches its
      supply, where the board has one. */
  predicate IsDisplay(params: map<string, string>, w: Wiring)
  {
    && "address" in params && params["address"] == (if "address" in w.display then w.display["address"] else "0x3C")
    && ("vext_pin" in params <==> Given(w.display, "vext"))
    && ("vext_pin" in params ==> params["vext_pin"] == w.display["vext"])
    && params.Keys <= {"address", "vext_pin"}
  }

  lemma DisplayParamsExactly(w: Wiring)
    ensures IsDisplay(DisplayParams(w), w)
  {
    assert "address"[0] != "vext_pin"[0];
  }

  function DataWires(id: string, bus: Option<string>): seq<Connection>
  {
    if bus.None? then []
    else [Connection(id, "SDA", OnBus(bus.value)), Connection(id, "SCL", OnBus(bus.value))]
  }

  function ResetWires(id: string, w: Wiring): seq<Connection>
  {
    if Given(w.display, "reset") then [Connection(id, "RESET", Gpio(w.display["reset"]))] else []
  }

  /** A display: its bus, the part, its supply, clock and data on the bus if there is one, and
      its reset on the board's pin for it if there is one. */
  lemma OledExactly(s: Draft, w: Wiring)
    returns (id: string, bus: Option<string>, added: seq<Bus>, params: map<string, string>)
    ensures DisplayBus(s, w, bus, added) && IsDisplay(params, w)
    ensures NamedFrom(id, "oled", s.ids + set b | b in added :: b.id)
    ensures
      var data, reset := DataWires(id, bus), ResetWires(id, w);
      var t := LowerOled(s, w);
      && t.parts == s.parts + [Part(id, "ssd1306", params)]
      && t.buses == s.buses + added
      && t.connections == s.connections + SupplyWires(id, w.rails) + data + reset
  {
    hide Power, SupplyWires, Unique, NamedFrom, WithDisplayBus, DisplayBus, DisplayParams, IsDisplay;
    bus, added := DisplayBusExactly(s, w);
    params := DisplayParams(w);
    DisplayParamsExactly(w);
    var s1 := s.(buses := s.buses + added, ids := s.ids + set b | b in added :: b.id);
    id := Unique(s1.ids, "oled");
    UniqueIsNamed(s1.ids, "oled");
    var s2 := AddPart(s1, "oled", "ssd1306", params);
    assert LastPart(s2) == id;
    PowerWires(s2, id, w.rails);
    var s3 := s2.connections + SupplyWires(id, w.rails);
    if bus.Some? {
      TwoMore(s3, Connection(id, "SDA", OnBus(bus.value)), Connection(id, "SCL", OnBus(bus.value)));
    }
  }

  // ---------------------------------------------------------- the whole step

  predicate HasKind(d: Document, libraryId: string)
  {
    exists i :: 0 <= i < |d.parts| && d.parts[i].libraryId == libraryId
  }

  /** What the three blocks add to a list of the document, in their order. */
  datatype Block = Block(parts: seq<Part>, buses: seq<Bus>, wires: seq<Connection>)

  const NO_BLOCK := Block([], [], [])

  ghost predicate IsGps(b: Block, gps: Gps, w: Wiring)
  {
    && |b.parts| == 1 && |b.buses| == 1
    && var id, bus := b.parts[0].id, b.buses[0].id;
    && b.parts[0] == Part(id, "uart_gps", map[])
    && b.buses[0] == Bus(bus, "uart", map["rx" := gps.rx, "tx" := gps.tx,
                                          "baud_rate" := Decimal(if gps.baud.Some? then gps.baud.value else 9600)])
    && b.wires == SupplyWires(id, w.rails) + [Connection(id, "TX", OnBus(bus)), Connection(id, "RX", OnBus(bus))]
  }

  ghost predicate IsDht(b: Block, pin: string, w: Wiring)
  {
    && |b.parts| == 1 && b.buses == []
    && var id := b.parts[0].id;
    && b.parts[0] == Part(id, "dht", map["model" := "DHT22"])
    && b.wires == SupplyWires(id, w.rails) + [Connection(id, "DATA", Gpio(pin))]
  }

  ghost predicate IsOled(b: Block, bus: Option<string>, w: Wiring)
  {
    && |b.parts| == 1
    && var id := b.parts[0].id;
    && b.parts[0].libraryId == "ssd1306" && IsDisplay(b.parts[0].params, w)
    && b.wires == SupplyWires(id, w.rails) + DataWires(id, bus) + ResetWires(id, w)
  }

  ghost predicate Follows(s: Draft, b: Block, t: Draft)
  {
    t.parts == s.parts + b.parts && t.buses == s.buses + b.buses && t.connections == s.connections + b.wires
  }

  lemma GpsBlock(s: Draft, gps: Gps, w: Wiring) returns (b: Block)
    ensures IsGps(b, gps, w) && Follows(s, b, LowerGps(s, gps, w))
  {
    hide LowerGps, SupplyWires;
    var id, bus := GpsExactly(s, gps, w);
    b := Block([Part(id, "uart_gps", map[])],
               [Bus(bus, "uart", map["rx" := gps.rx, "tx" := gps.tx,
                                     "baud_rate" := Decimal(if gps.baud.Some? then gps.baud.value else 9600)])],
               SupplyWires(id, w.rails) + [Connection(id, "TX", OnBus(bus)), Connection(id, "RX", OnBus(bus))]);
    assert s.connections + b.wires
      == s.connections + SupplyWires(id, w.rails)
         + [Connection(id, "TX", OnBus(bus)), Connection(id, "RX", OnBus(bus))];
  }

  lemma DhtBlock(s: Draft, pin: string, w: Wiring) returns (b: Block)
    ensures IsDht(b, pin, w) && Follows(s, b, LowerDht(s, pin, w))
  {
    hide LowerDht, SupplyWires;
    var id := DhtExactly(s, pin, w);
    b := Block([Part(id, "dht", map["model" := "DHT22"])], [],
               SupplyWires(id, w.rails) + [Connection(id, "DATA", Gpio(pin))]);
    assert s.connections + b.wires == s.connections + SupplyWires(id, w.rails) + [Connection(id, "DATA", Gpio(pin))];
  }

  lemma OledBlock(s: Draft, w: Wiring) returns (b: Block, bus: Option<string>)
    ensures IsOled(b, bus, w) && Follows(s, b, LowerOled(s, w)) && DisplayBus(s, w, bus, b.buses)
  {
    hide LowerOled, SupplyWires, DisplayBus, IsDisplay;
    var id, added, params;
    id, bus, added, params := OledExactly(s, w);
    var data, reset := DataWires(id, bus), ResetWires(id, w);
    b := Block([Part(id, "ssd1306", params)], added, SupplyWires(id, w.rails) + data + reset);
    assert s.connections + b.wires == s.connections + SupplyWires(id, w.rails) + data + reset;
  }

  /** The lowered document: the lists it had, then what each block stands for, in the order GPS,
      DHT22, display; a block counts when it is there, not switched off, and the design has no
      part of its kind. The display runs on the first I2C bus of the document as it then is. */
  lemma LoweringExactly(d: Document, w: Wiring)
    returns (gps: Block, dht: Block, oled: Block, bus: Option<string>)
    ensures
      var out := Lower(d, w);
      && out.sugar == Sugar(None, None, None)
      && out.parts == d.parts + gps.parts + dht.parts + oled.parts
      && out.buses == d.buses + gps.buses + dht.buses + oled.buses
      && out.connections == d.connections + gps.wires + dht.wires + oled.wires
    ensures if d.sugar.gps.Some? && !HasKind(d, "uart_gps") then IsGps(gps, d.sugar.gps.value, w) else gps == NO_BLOCK
    ensures if d.sugar.dht22.Some? && !HasKind(d, "dht") then IsDht(dht, d.sugar.dht22.value, w) else dht == NO_BLOCK
    ensures
      if d.sugar.oled.Some? && d.sugar.oled.value.enabled != Some(false) && !HasKind(d, "ssd1306")
      then IsOled(oled, bus, w) && DisplayBus(AfterDht(d, w), w, bus, oled.buses) else oled == NO_BLOCK
  {
    hide LowerGps, LowerDht, LowerOled, IsGps, IsDht, IsOled, DisplayBus;
    gps, dht, oled, bus := NO_BLOCK, NO_BLOCK, NO_BLOCK, None;
    KindsPresent(d);
    if WantsGps(d) {
      gps := GpsBlock(Start(d), d.sugar.gps.value, w);
    }
    assert Follows(Start(d), gps, AfterGps(d, w));
    if WantsDht(d) {
      dht := DhtBlock(AfterGps(d, w), d.sugar.dht22.value, w);
    }
    assert Follows(AfterGps(d, w), dht, AfterDht(d, w));
    if WantsOled(d) {
      oled, bus := OledBlock(AfterDht(d, w), w);
    }
    assert Follows(AfterDht(d, w), oled, AfterOled(d, w));
  }

  lemma KindsPresent(d: Document)
    ensures forall libraryId :: Present(d, libraryId) <==> HasKind(d, libraryId)
  {
    forall libraryId ensures Present(d, libraryId) <==> HasKind(d, libraryId) {
      if HasKind(d, libraryId) {
        var i :| 0 <= i < |d.parts| && d.parts[i].libraryId == libraryId;
        assert d.parts[i] in d.parts;
      }
    }
  }
}
