/** Generated bus ids (wirestudio/model.py:72-82, wirestudio/migrate.py:183-189). */
module BusIds {
  import opened Text

  const RESERVED_BUS_IDS := {"uart0", "uart1", "uart2", "spi0", "spi1"}

  /** What `generated_bus_id(bus_type, n)` puts before the number. */
  function BusPrefix(kind: string): string
  {
    if kind + "0" in RESERVED_BUS_IDS then kind + "_bus" else kind
  }

  function GeneratedBusId(kind: string, n: nat): string
  {
    Numbered(BusPrefix(kind), n)
  }

  lemma {:induction false} ReservedShape(id: string)
    requires id in RESERVED_BUS_IDS
    ensures id[..|id| - 1] in {"uart", "spi"} && id[|id| - 2] !in DIGITS
  {
    assert "uart0"[..4] == "uart" && "uart1"[..4] == "uart" && "uart2"[..4] == "uart";
    assert "spi0"[..3] == "spi" && "spi1"[..3] == "spi";
  }

  /** No type and no number generates an id ESPHome reserves. */
  lemma GeneratedNeverReserved(kind: string, n: nat)
    ensures GeneratedBusId(kind, n) !in RESERVED_BUS_IDS
  {
    var id, digits := GeneratedBusId(kind, n), Decimal(n);
    assert BusPrefix(kind) !in {"uart", "spi"} by {
      assert "uart" + "0" == "uart0" && "spi" + "0" == "spi0";
      assert |kind + "_bus"| > 0 && (kind + "_bus")[|kind|] == '_';
    }
    assert |digits| == 1 ==> id[..|id| - 1] == BusPrefix(kind);
    assert |digits| > 1 ==> id[|id| - 2] == digits[|digits| - 2] && digits[|digits| - 2] in digits;
    if id in RESERVED_BUS_IDS {
      ReservedShape(id);
    }
  }

  /** Spelled out: of all types only `uart` and `spi` get `_bus` before the number. */
  lemma GeneratedSpelled(kind: string, n: nat)
    ensures GeneratedBusId(kind, n) == kind + (if kind in {"uart", "spi"} then "_bus" else "") + Decimal(n)
  {
    assert "uart" + "0" == "uart0" && "spi" + "0" == "spi0";
    if kind + "0" in RESERVED_BUS_IDS {
      ReservedShape(kind + "0");
      assert (kind + "0")[..|kind|] == kind;
    }
    assert kind + "" == kind;
  }

  /** `{id}_{n}` is not reserved either: reserved ids hold no underscore. */
  lemma SuffixedNeverReserved(id: string, n: nat)
    ensures Numbered(id + "_", n) !in RESERVED_BUS_IDS
  {
    var s := Numbered(id + "_", n);
    assert s[|id|] == '_' && '_' in s;
    assert forall r | r in RESERVED_BUS_IDS :: '_' !in r;
  }

  /** The loop of `_free_bus_id`. */
  method FreeBusId(kind: string, taken: set<string>) returns (id: string)
    ensures id == FreeBusIdFor(kind, taken)
  {
    var n := FindFree(BusPrefix(kind), taken, 0);
    id := GeneratedBusId(kind, n);
  }

  function FreeBusIdFor(kind: string, taken: set<string>): (id: string)
    ensures id !in taken
  {
    GeneratedBusId(kind, FirstFree(BusPrefix(kind), taken, 0))
  }
}
