/** Which board pins can serve a library pin, and in what order the solver prefers them
    (wirestudio/csp/pin_solver.py:57-130, 375-379). */
module PinCandidates {
  import opened Options
  import opened DesignModel
  import opened Text

  // --------------------------------------------------------------- filters

  function RequiredCaps(kind: string): set<string>
  {
    if kind == "analog_in" then {"adc"} else {"gpio"}
  }

  const SPECIAL := {"boot", "strap", "builtin_led", "boot_high", "boot_low", "serial_tx", "serial_rx"}

  /** The two kinds the solver keeps off input-only pins. */
  predicate SolverOutput(kind: string)
  {
    kind == "digital_out" || kind == "i2s_dout"
  }

  predicate Eligible(pin: LibPin, caps: set<string>)
  {
    && RequiredCaps(pin.kind) <= caps
    && !(SolverOutput(pin.kind) && "input_only" in caps)
    && !(pin.requiresPwm && "no_pwm" in caps)
    && !(pin.requiresInterrupt && "no_interrupt" in caps)
    && !(pin.requiresFastGpio && "no_fast_gpio" in caps)
  }

  // ------------------------------------------------------------ preference

  datatype Key = Key(special: nat, nonPwm: nat, adc2: nat, name: string)

  function KeyOf(chip: string, pin: LibPin, entry: BoardPin): Key
  {
    Key(
      if entry.caps * SPECIAL != {} then 1 else 0,
      if pin.requiresPwm && "pwm" !in entry.caps then 1 else 0,
      if pin.kind == "analog_in" && chip == "esp32" && "adc2" in entry.caps then 1 else 0,
      entry.name)
  }

  /** Tuple order, component by component. */
  predicate KeyLeq(a: Key, b: Key)
  {
    if a.special != b.special then a.special < b.special
    else if a.nonPwm != b.nonPwm then a.nonPwm < b.nonPwm
    else if a.adc2 != b.adc2 then a.adc2 < b.adc2
    else StrLeq(a.name, b.name)
  }

  lemma KeyLeqTotal(a: Key, b: Key)
    ensures KeyLeq(a, b) || KeyLeq(b, a)
  {
    StrLeqTotal(a.name, b.name);
  }

  lemma KeyLeqTransitive(a: Key, b: Key, c: Key)
    requires KeyLeq(a, b) && KeyLeq(b, c)
    ensures KeyLeq(a, c)
  {
    if StrLeq(a.name, b.name) && StrLeq(b.name, c.name) {
      StrLeqTransitive(a.name, b.name, c.name);
    }
  }

  // -------------------------------------------------------------- sorting

  ghost predicate Ascending(keys: seq<Key>)
  {
    forall i, j :: 0 <= i < j < |keys| ==> KeyLeq(keys[i], keys[j])
  }

  function Insert(k: Key, keys: seq<Key>): (r: seq<Key>)
    ensures multiset(r) == multiset(keys) + multiset{k}
  {
    if keys == [] then [k]
    else
      assert keys == [keys[0]] + keys[1..];
      if KeyLeq(k, keys[0]) then [k] + keys
      else [keys[0]] + Insert(k, keys[1..])
  }

  /** `candidates.sort()`. */
  function Sort(keys: seq<Key>): (r: seq<Key>)
    ensures multiset(r) == multiset(keys)
  {
    if keys == [] then []
    else
      assert keys == [keys[0]] + keys[1..];
      Insert(keys[0], Sort(keys[1..]))
  }

  lemma {:induction false} InsertKeepsOrder(k: Key, keys: seq<Key>)
    requires Ascending(keys)
    ensures Ascending(Insert(k, keys))
  {
    var r := Insert(k, keys);
    if keys != [] {
      if KeyLeq(k, keys[0]) {
        forall j | 0 < j < |r| ensures KeyLeq(k, r[j]) {
          if j > 1 { KeyLeqTransitive(k, keys[0], keys[j - 1]); }
        }
      } else {
        KeyLeqTotal(k, keys[0]);
        InsertKeepsOrder(k, keys[1..]);
        forall j | 0 < j < |r| ensures KeyLeq(keys[0], r[j]) {
          assert r[j] in multiset(r[1..]);
          assert r[1..] == Insert(k, keys[1..]);
        }
      }
    }
  }

  lemma {:induction false} SortAscends(keys: seq<Key>)
    ensures Ascending(Sort(keys))
  {
    if keys != [] {
      SortAscends(keys[1..]);
      InsertKeepsOrder(keys[0], Sort(keys[1..]));
    }
  }

  // ----------------------------------------------------------- candidates

  /** The keys collected from the first n entries of the pin table. */
  function Collected(chip: string, pin: LibPin, gpio: seq<BoardPin>, n: nat): seq<Key>
    requires n <= |gpio|
  {
    if n == 0 then []
    else
      var sofar := Collected(chip, pin, gpio, n - 1);
      if Eligible(pin, gpio[n - 1].caps) then sofar + [KeyOf(chip, pin, gpio[n - 1])] else sofar
  }

  function Candidates(board: Board, pin: LibPin): seq<Key>
  {
    Sort(Collected(board.chipVariant, pin, board.gpio, |board.gpio|))
  }

  /** The loop of `_gpio_candidates_for_pin`. */
  method CollectCandidates(board: Board, pin: LibPin) returns (keys: seq<Key>)
    ensures keys == Candidates(board, pin)
  {
    keys := [];
    for i := 0 to |board.gpio|
      invariant keys == Collected(board.chipVariant, pin, board.gpio, i)
    {
      var entry := board.gpio[i];
      if !(RequiredCaps(pin.kind) <= entry.caps) { continue; }
      if SolverOutput(pin.kind) && "input_only" in entry.caps { continue; }
      if pin.requiresPwm && "no_pwm" in entry.caps { continue; }
      if pin.requiresInterrupt && "no_interrupt" in entry.caps { continue; }
      if pin.requiresFastGpio && "no_fast_gpio" in entry.caps { continue; }
      keys := keys + [KeyOf(board.chipVariant, pin, entry)];
    }
    keys := Sort(keys);
  }

  lemma {:induction false} CollectedExactly(chip: string, pin: LibPin, gpio: seq<BoardPin>, n: nat, k: Key)
    requires n <= |gpio|
    ensures k in Collected(chip, pin, gpio, n)
       <==> exists i :: 0 <= i < n && Eligible(pin, gpio[i].caps) && k == KeyOf(chip, pin, gpio[i])
  {
    if n > 0 {
      CollectedExactly(chip, pin, gpio, n - 1, k);
    }
  }

  /** `name` is a pin of this board that can serve the library pin. */
  ghost predicate CanServe(board: Board, pin: LibPin, name: string)
  {
    exists i :: 0 <= i < |board.gpio| && board.gpio[i].name == name && Eligible(pin, board.gpio[i].caps)
  }

  function KeyNamed(board: Board, pin: LibPin, name: string): Key
  {
    KeyOf(board.chipVariant, pin, BoardPin(name, CapsOf(board.gpio, name)))
  }

  lemma CandidatesExactly(board: Board, pin: LibPin, k: Key)
    ensures k in Candidates(board, pin) <==> CanServe(board, pin, k.name) && k == KeyNamed(board, pin, k.name)
  {
    CollectedExactly(board.chipVariant, pin, board.gpio, |board.gpio|, k);
    assert k in multiset(Candidates(board, pin))
      <==> k in multiset(Collected(board.chipVariant, pin, board.gpio, |board.gpio|));
    forall i | 0 <= i < |board.gpio| ensures CapsOf(board.gpio, board.gpio[i].name) == board.gpio[i].caps {
      CapsOfEntry(board.gpio, i);
    }
  }

  lemma CanServeByCaps(board: Board, pin: LibPin, name: string)
    ensures CanServe(board, pin, name) ==> Eligible(pin, CapsOf(board.gpio, name))
  {
    if CanServe(board, pin, name) {
      var i :| 0 <= i < |board.gpio| && board.gpio[i].name == name && Eligible(pin, board.gpio[i].caps);
      CapsOfEntry(board.gpio, i);
    }
  }

  // ------------------------------------------------------------- the pick

  function FirstUnused(keys: seq<Key>, used: set<string>): Option<string>
  {
    if keys == [] then None
    else if keys[0].name !in used then Some(keys[0].name)
    else FirstUnused(keys[1..], used)
  }

  function SolveGpio(board: Board, pin: LibPin, used: set<string>): Option<string>
  {
    FirstUnused(Candidates(board, pin), used)
  }

  /** The loop of `_solve_gpio`. */
  method PickGpio(board: Board, pin: LibPin, used: set<string>) returns (r: Option<string>)
    ensures r == SolveGpio(board, pin, used)
  {
    var keys := CollectCandidates(board, pin);
    for i := 0 to |keys|
      invariant SolveGpio(board, pin, used) == FirstUnused(keys[i..], used)
    {
      if keys[i].name !in used {
        return Some(keys[i].name);
      }
    }
    return None;
  }

  lemma {:induction false} FirstUnusedIsLeast(keys: seq<Key>, used: set<string>)
    requires Ascending(keys)
    ensures FirstUnused(keys, used).None? <==> forall k | k in keys :: k.name in used
    ensures FirstUnused(keys, used).Some? ==>
      exists k :: k in keys && k.name == FirstUnused(keys, used).value && k.name !in used
        && forall other | other in keys && other.name !in used :: KeyLeq(k, other)
  {
    if keys != [] {
      assert keys == [keys[0]] + keys[1..];
      if keys[0].name !in used {
        KeyLeqTotal(keys[0], keys[0]);
        forall other | other in keys ensures KeyLeq(keys[0], other) {
          var j :| 0 <= j < |keys| && keys[j] == other;
        }
        assert keys[0] in keys;
      } else {
        FirstUnusedIsLeast(keys[1..], used);
      }
    }
  }

  /** The pick is the least unused pin that can serve, and there is none only when
      every pin that can serve is taken. */
  lemma PickIsLeastUnused(board: Board, pin: LibPin, used: set<string>)
    ensures SolveGpio(board, pin, used).None? <==> forall name | CanServe(board, pin, name) :: name in used
    ensures SolveGpio(board, pin, used).Some? ==>
      var pick := SolveGpio(board, pin, used).value;
      && CanServe(board, pin, pick) && pick !in used
      && forall name | CanServe(board, pin, name) && name !in used ::
           KeyLeq(KeyNamed(board, pin, pick), KeyNamed(board, pin, name))
  {
    var keys := Candidates(board, pin);
    SortAscends(Collected(board.chipVariant, pin, board.gpio, |board.gpio|));
    FirstUnusedIsLeast(keys, used);
    forall k | k in keys ensures CanServe(board, pin, k.name) && k == KeyNamed(board, pin, k.name) {
      CandidatesExactly(board, pin, k);
    }
    forall name | CanServe(board, pin, name) ensures KeyNamed(board, pin, name) in keys {
      CandidatesExactly(board, pin, KeyNamed(board, pin, name));
    }
  }

  /** A larger used set can only lose the pick; while the old pick stays free, it stays. */
  lemma {:induction false} FirstUnusedMonotone(keys: seq<Key>, used: set<string>, more: set<string>)
    requires used <= more
    ensures FirstUnused(keys, used).None? ==> FirstUnused(keys, more).None?
    ensures FirstUnused(keys, used).Some? && FirstUnused(keys, used).value !in more
       ==> FirstUnused(keys, more) == FirstUnused(keys, used)
  {
    if keys != [] {
      FirstUnusedMonotone(keys[1..], used, more);
    }
  }
}
