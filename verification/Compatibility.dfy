/** The compatibility checker's rules for one wired pin (wirestudio/csp/compatibility.py:45-289,
    325-375), and how far the solver's filters agree with them. */
module Compatibility {
  import opened Options
  import opened DesignModel
  import opened PinCandidates
  import opened PinSolver
  import opened SolverTrace
  import opened SolverSafety

  datatype Severity = Info | Warn | Error

  datatype Finding = Finding(severity: Severity, code: string)

  datatype Placed = Placed(finding: Finding, pin: string, componentId: string, role: string)

  const OUTPUT_KINDS := {"digital_out", "i2s_dout", "uart_tx", "spi_cs", "spi_clk", "spi_mosi",
                         "i2s_lrclk", "i2s_bclk"}
  const INPUT_KINDS := {"digital_in", "analog_in", "uart_rx", "spi_miso"}

  datatype Direction = Out | In | Neither

  function DirectionFor(kind: string): Direction
  {
    if kind in OUTPUT_KINDS then Out else if kind in INPUT_KINDS then In else Neither
  }

  datatype Rule = Rule(applies: bool, finding: Finding)

  predicate Strap(caps: set<string>)
  {
    "boot_high" in caps || "boot_low" in caps
  }

  /** Rules 1 to 5, in the order the checker runs them. */
  function Rules(chip: string, pin: LibPin, caps: set<string>): seq<Rule>
  {
    var direction := DirectionFor(pin.kind);
    [ Rule(direction == Out && "input_only" in caps, Finding(Error, "input_only_as_output")),
      Rule(direction == Out && Strap(caps), Finding(Warn, "boot_strap_output")),
      Rule(direction == In && pin.driven && Strap(caps), Finding(Warn, "boot_strap_driven")),
      Rule("serial_tx" in caps || "serial_rx" in caps, Finding(Warn, "serial_console")),
      Rule(direction == In && "adc_max_1v" in caps && pin.kind == "analog_in", Finding(Info, "voltage_limit")),
      Rule(direction == In && pin.kind == "analog_in" && "adc2" in caps && chip == "esp32",
           Finding(Warn, "adc2_wifi_conflict")),
      Rule(pin.requiresPwm && "no_pwm" in caps, Finding(Error, "function_unsupported")),
      Rule(pin.requiresInterrupt && "no_interrupt" in caps, Finding(Error, "function_unsupported")),
      Rule(pin.requiresFastGpio && "no_fast_gpio" in caps, Finding(Error, "function_unsupported")) ]
  }

  /** The findings of the rules that apply. */
  function Selected(rules: seq<Rule>): seq<Finding>
  {
    if rules == [] then []
    else (if rules[0].applies then [rules[0].finding] else []) + Selected(rules[1..])
  }

  function PinFindings(chip: string, pin: LibPin, caps: set<string>): seq<Finding>
  {
    Selected(Rules(chip, pin, caps))
  }

  /** What the checker says about one connection; nothing when it cannot resolve it. */
  function ConnectionFindings(d: Design, library: Library, board: Board, c: Connection): seq<Finding>
  {
    if !c.target.Gpio? || c.target.pin == "" || PinOf(library, d.components, c).None? then []
    else
      var caps := CapsOf(board.gpio, c.target.pin);
      if caps == {} then [] else PinFindings(board.chipVariant, PinOf(library, d.components, c).value, caps)
  }

  function AllFindings(d: Design, library: Library, board: Board, n: nat): seq<Placed>
    requires n <= |d.connections|
  {
    if n == 0 then []
    else
      var c := d.connections[n - 1];
      AllFindings(d, library, board, n - 1) + PlaceAll(ConnectionFindings(d, library, board, c), c)
  }

  function PlaceAll(findings: seq<Finding>, c: Connection): seq<Placed>
  {
    if findings == [] || !c.target.Gpio? then []
    else [Placed(findings[0], c.target.pin, c.componentId, c.role)] + PlaceAll(findings[1..], c)
  }

  lemma {:induction false} SelectedExactly(rules: seq<Rule>, f: Finding)
    ensures f in Selected(rules) <==> exists k :: 0 <= k < |rules| && rules[k].applies && rules[k].finding == f
  {
    if rules != [] {
      SelectedExactly(rules[1..], f);
      if k :| 0 <= k < |rules[1..]| && rules[1..][k].applies && rules[1..][k].finding == f {
        assert rules[k + 1].finding == f;
      }
    }
  }

  predicate Unsupported(pin: LibPin, caps: set<string>)
  {
    || (pin.requiresPwm && "no_pwm" in caps)
    || (pin.requiresInterrupt && "no_interrupt" in caps)
    || (pin.requiresFastGpio && "no_fast_gpio" in caps)
  }

  /** The condition under which a code is reported, code by code. */
  predicate Deserves(chip: string, pin: LibPin, caps: set<string>, f: Finding)
  {
    match f
    case Finding(Error, code) =>
      || (code == "input_only_as_output" && pin.kind in OUTPUT_KINDS && "input_only" in caps)
      || (code == "function_unsupported" && Unsupported(pin, caps))
    case Finding(Warn, code) =>
      || (code == "boot_strap_output" && pin.kind in OUTPUT_KINDS && ("boot_high" in caps || "boot_low" in caps))
      || (code == "boot_strap_driven" && pin.kind in INPUT_KINDS && pin.driven
          && ("boot_high" in caps || "boot_low" in caps))
      || (code == "serial_console" && ("serial_tx" in caps || "serial_rx" in caps))
      || (code == "adc2_wifi_conflict" && pin.kind == "analog_in" && "adc2" in caps && chip == "esp32")
    case Finding(Info, code) =>
      code == "voltage_limit" && pin.kind == "analog_in" && "adc_max_1v" in caps
  }

  lemma FindingsExactly(chip: string, pin: LibPin, caps: set<string>, f: Finding)
    ensures f in PinFindings(chip, pin, caps) <==> Deserves(chip, pin, caps, f)
  {
    var rules := Rules(chip, pin, caps);
    SelectedExactly(rules, f);
    hide Selected;
    if Deserves(chip, pin, caps, f) {
      var k := match f.code
        case "input_only_as_output" => 0
        case "boot_strap_output" => 1
        case "boot_strap_driven" => 2
        case "serial_console" => 3
        case "voltage_limit" => 4
        case "adc2_wifi_conflict" => 5
        case _ => if pin.requiresPwm && "no_pwm" in caps then 6
                  else if pin.requiresInterrupt && "no_interrupt" in caps then 7 else 8;
      assert rules[k].applies && rules[k].finding == f;
    }
  }

  /** The finding names connection i and its pin, and the rule behind its code applies there:
      the connection resolves to a library pin and its board pin is known. */
  predicate Reported(d: Design, library: Library, board: Board, i: nat, p: Placed)
    requires i < |d.connections|
  {
    var c := d.connections[i];
    && c.target == Gpio(p.pin) && p.pin != "" && c.componentId == p.componentId && c.role == p.role
    && PinOf(library, d.components, c).Some? && CapsOf(board.gpio, p.pin) != {}
    && Deserves(board.chipVariant, PinOf(library, d.components, c).value, CapsOf(board.gpio, p.pin), p.finding)
  }

  lemma {:induction false} PlacedExactly(findings: seq<Finding>, c: Connection, p: Placed)
    ensures p in PlaceAll(findings, c)
       <==> c.target == Gpio(p.pin) && c.componentId == p.componentId && c.role == p.role && p.finding in findings
  {
    if findings != [] && c.target.Gpio? {
      PlacedExactly(findings[1..], c, p);
      assert findings == [findings[0]] + findings[1..];
    }
  }

  lemma ConnectionReported(d: Design, library: Library, board: Board, i: nat, p: Placed)
    requires i < |d.connections|
    ensures
      var c := d.connections[i];
      p in PlaceAll(ConnectionFindings(d, library, board, c), c) <==> Reported(d, library, board, i, p)
  {
    var c := d.connections[i];
    PlacedExactly(ConnectionFindings(d, library, board, c), c, p);
    if c.target.Gpio? && PinOf(library, d.components, c).Some? {
      FindingsExactly(board.chipVariant, PinOf(library, d.components, c).value,
                      CapsOf(board.gpio, c.target.pin), p.finding);
    }
    hide PinFindings, Deserves, PlaceAll, PinOf, CapsOf;
  }

  /** What the checker says, exactly: a finding is in the list if and only if some connection
      deserves it. */
  lemma {:induction false} AllFindingsExactly(d: Design, library: Library, board: Board, n: nat, p: Placed)
    requires n <= |d.connections|
    ensures p in AllFindings(d, library, board, n) <==> exists i :: 0 <= i < n && Reported(d, library, board, i, p)
  {
    hide Reported, ConnectionFindings, PlaceAll;
    if n > 0 {
      AllFindingsExactly(d, library, board, n - 1, p);
      ConnectionReported(d, library, board, n - 1, p);
    }
  }

  /** The connection loop of `check_pin_compatibility`. */
  method CheckConnections(d: Design, library: Library, board: Board) returns (out: seq<Placed>)
    ensures forall p :: p in out <==> exists i :: 0 <= i < |d.connections| && Reported(d, library, board, i, p)
    ensures out == AllFindings(d, library, board, |d.connections|)
  {
    out := [];
    for i := 0 to |d.connections|
      invariant out == AllFindings(d, library, board, i)
    {
      var c := d.connections[i];
      out := out + PlaceAll(ConnectionFindings(d, library, board, c), c);
    }
    forall p ensures p in out <==> exists i :: 0 <= i < |d.connections| && Reported(d, library, board, i, p) {
      AllFindingsExactly(d, library, board, |d.connections|, p);
    }
  }

  // --------------------------------------------------- solver versus checker

  /** Kinds the checker calls outputs and the solver does not keep off input-only pins;
      `spi_cs` is the one library parts give a gpio target. */
  const GAP_KINDS := OUTPUT_KINDS - {"digital_out", "i2s_dout"}

  /** Board pin `name` has no boot, strap, LED or console duty. */
  predicate Ordinary(board: Board, name: string)
  {
    CapsOf(board.gpio, name) * SPECIAL == {}
  }

  /** What the checker can say about the pin the solver picks. No error but the gap's; a strap
      or console warning only when every ordinary candidate was taken; an ADC2 warning only
      when every ordinary candidate off ADC2 (with PWM, if asked for) was taken. */
  lemma PickAgainstChecker(board: Board, pin: LibPin, used: set<string>, p: string, f: Finding)
    requires SolveGpio(board, pin, used) == Some(p)
    requires f in PinFindings(board.chipVariant, pin, CapsOf(board.gpio, p))
    ensures f.severity == Error ==>
      f.code == "input_only_as_output" && pin.kind in GAP_KINDS && "input_only" in CapsOf(board.gpio, p)
    ensures f.code in {"boot_strap_output", "boot_strap_driven", "serial_console"} ==>
      forall name | CanServe(board, pin, name) && Ordinary(board, name) :: name in used
    ensures f.code == "adc2_wifi_conflict" ==>
      forall name | CanServe(board, pin, name) && Ordinary(board, name) && "adc2" !in CapsOf(board.gpio, name)
                    && (pin.requiresPwm ==> "pwm" in CapsOf(board.gpio, name)) :: name in used
  {
    FindingsExactly(board.chipVariant, pin, CapsOf(board.gpio, p), f);
    PickIsLeastUnused(board, pin, used);
    CanServeByCaps(board, pin, p);
    if f.code in {"boot_strap_output", "boot_strap_driven", "serial_console"} {
      assert !Ordinary(board, p) by {
        var tag :| tag in SPECIAL && tag in CapsOf(board.gpio, p);
        assert tag in CapsOf(board.gpio, p) * SPECIAL;
      }
    }
    forall name | CanServe(board, pin, name) && name !in used
      ensures KeyLeq(KeyNamed(board, pin, p), KeyNamed(board, pin, name))
    {
    }
  }

  /** The checker's own copy of the solver's requirements, used for locked pins. */
  function LockRequires(kind: string): set<string>
  {
    if kind == "analog_in" then {"adc"}
    else if kind in {"digital_in", "digital_out", "spi_cs", "i2s_dout"} then {"gpio"}
    else {}
  }

  predicate LockInvalid(pin: LibPin, caps: set<string>)
  {
    caps != {} && !(LockRequires(pin.kind) <= caps)
  }

  /** The two copies agree where both speak: locking the pin the solver would pick is never
      reported as an invalid lock. */
  lemma LockedPickIsValid(board: Board, pin: LibPin, used: set<string>, p: string)
    requires SolveGpio(board, pin, used) == Some(p)
    ensures !LockInvalid(pin, CapsOf(board.gpio, p))
  {
    PickIsLeastUnused(board, pin, used);
    CanServeByCaps(board, pin, p);
  }

  const INPUT_ONLY: GpioTable := [BoardPin("GPIO34", {"gpio", "input_only"})]

  lemma OnePinPick(board: Board, pin: LibPin, p: BoardPin)
    requires board.gpio == [p] && Eligible(pin, p.caps)
    ensures SolveGpio(board, pin, {}) == Some(p.name) && CapsOf(board.gpio, p.name) == p.caps
  {
    assert board.gpio[0] == p;
    assert CanServe(board, pin, p.name);
    PickIsLeastUnused(board, pin, {});
    hide Eligible;
  }

  /** On a board whose only pin is input-only, a gap kind is given that pin. */
  lemma GapWitness(kind: string) returns (board: Board, pin: LibPin)
    requires kind in GAP_KINDS
    ensures pin.kind == kind && SolveGpio(board, pin, {}) == Some("GPIO34") && !Clean(board, pin, "GPIO34")
  {
    pin := LibPin("CS", kind, false, false, false, false, None);
    board := Board("esp32", INPUT_ONLY, [], map[]);
    assert Eligible(pin, INPUT_ONLY[0].caps);
    OnePinPick(board, pin, INPUT_ONLY[0]);
    var f := Finding(Error, "input_only_as_output");
    assert Deserves("esp32", pin, INPUT_ONLY[0].caps, f);
    FindingsExactly("esp32", pin, INPUT_ONLY[0].caps, f);
    hide Eligible, SolveGpio, PinFindings, Deserves;
  }

  /** The agreement, exactly: a kind is safe from checker errors on every board and under
      every set of used pins if and only if it is not one of the gap kinds. */
  lemma KindIsSafeIff(kind: string)
    ensures kind !in GAP_KINDS <==>
      forall board: Board, pin: LibPin, used, p | pin.kind == kind && SolveGpio(board, pin, used) == Some(p) ::
        Clean(board, pin, p)
  {
    if kind in GAP_KINDS {
      var board, pin := GapWitness(kind);
    } else {
      forall board: Board, pin: LibPin, used, p | pin.kind == kind && SolveGpio(board, pin, used) == Some(p)
        ensures Clean(board, pin, p)
      {
        forall f | f in PinFindings(board.chipVariant, pin, CapsOf(board.gpio, p)) ensures f.severity != Error {
          PickAgainstChecker(board, pin, used, p, f);
        }
      }
    }
  }

  /** The checker reports no error for this library pin on board pin p. */
  predicate Clean(board: Board, pin: LibPin, p: string)
  {
    forall f | f in PinFindings(board.chipVariant, pin, CapsOf(board.gpio, p)) :: f.severity != Error
  }

  /** In a solved design: a connection the greedy pass bound carries no checker error, unless
      its kind is a gap kind and its pin input-only. */
  lemma SolvedPickIsClean(d: Design, library: Library, i: nat, p: string, f: Finding)
    requires i < |d.connections| && PickedPin(d, library, i, p)
    requires
      var out := Solve(d, library).design;
      f in ConnectionFindings(out, library, BoardOf(d, library).value, out.connections[i]) && f.severity == Error
    ensures PinOf(library, d.components, d.connections[i]).Some?
    ensures f.code == "input_only_as_output"
    ensures PinOf(library, d.components, d.connections[i]).value.kind in GAP_KINDS
    ensures "input_only" in CapsOf(BoardOf(d, library).value.gpio, p)
  {
    var board := BoardOf(d, library).value;
    var ctx := ContextOf(d, library, board);
    var st := Locked(d, ctx);
    SolvedConnection(d, library, board, i);
    SolveFrame(d, library);
    GpioChoice(ctx, st, i, p);
    PickAgainstChecker(board, LibPinOf(ctx, st.connections[i]), After(ctx, st, i).used, p, f);
  }

  lemma SolvedPin(d: Design, library: Library, i: nat)
    requires i < |d.connections|
    ensures |Solve(d, library).design.connections| == |d.connections|
    ensures
      var out := Solve(d, library).design;
      PinOf(library, out.components, out.connections[i]) == PinOf(library, d.components, d.connections[i])
  {
    SolveFrame(d, library);
  }

  /** An error reported at connection i of a solved design, and who put the pin there: it was
      bound on entry, or by a lock, or it is the gap. */
  predicate Excused(d: Design, library: Library, i: nat, p: Placed)
    requires i < |d.connections|
  {
    && d.connections[i].componentId == p.componentId && d.connections[i].role == p.role
    && (|| d.connections[i].target == Gpio(p.pin)
        || BoundByLock(d, library, i, p.pin)
        || (&& PickedPin(d, library, i, p.pin) && p.finding.code == "input_only_as_output"
            && PinOf(library, d.components, d.connections[i]).Some?
            && PinOf(library, d.components, d.connections[i]).value.kind in GAP_KINDS))
  }

  lemma SolvedErrorIsExcused(d: Design, library: Library, board: Board, i: nat, p: Placed)
    requires BoardOf(d, library) == Some(board) && i < |d.connections|
    requires |Solve(d, library).design.connections| == |d.connections|
    requires p.finding.severity == Error && Reported(Solve(d, library).design, library, board, i, p)
    ensures Excused(d, library, i, p)
  {
    var out := Solve(d, library).design;
    SolveFrame(d, library);
    SolvedPin(d, library, i);
    if PickedPin(d, library, i, p.pin) {
      ConnectionReported(out, library, board, i, p);
      PlacedExactly(ConnectionFindings(out, library, board, out.connections[i]), out.connections[i], p);
      SolvedPickIsClean(d, library, i, p.pin, p.finding);
    } else {
      NotPickedIsOld(d, library, board, i, p.pin);
    }
  }

  /** Every error the checker reports on a solved design is on a pin that was bound on entry,
      or bound by a lock, or was picked for a gap kind. */
  lemma SolvedErrorsAreExcused(d: Design, library: Library, board: Board, p: Placed)
    requires BoardOf(d, library) == Some(board) && p.finding.severity == Error
    requires
      var out := Solve(d, library).design;
      p in AllFindings(out, library, board, |out.connections|)
    ensures exists i :: 0 <= i < |d.connections| && Excused(d, library, i, p)
  {
    var out := Solve(d, library).design;
    SolveFrame(d, library);
    AllFindingsExactly(out, library, board, |out.connections|, p);
    hide Solve, Reported, Excused;
    var i :| 0 <= i < |out.connections| && Reported(out, library, board, i, p);
    SolvedErrorIsExcused(d, library, board, i, p);
  }
}
