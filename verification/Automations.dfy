/** Automations: the validator's warnings (wirestudio/intent.py:22-196) and the lowering that
    drops what cannot be resolved (wirestudio/generate/yaml_gen.py:179-296). */
module Automations {
  import opened Options

  datatype Provide = Provide(event: string, channel: string, esphome: string)

  datatype Accept = Accept(action: string, esphome: string)

  datatype Check = Check(condition: string, esphome: string)

  datatype Capability = Capability(offers: seq<Provide>, accepts: seq<Accept>, checks: seq<Check>)

  /** A JSON argument, or the lambda a transform lowers to. */
  datatype Arg = Null | Text(text: string) | Number(value: int) | Lambda(expression: string)

  /** Empty strings stand for the absent channel. */
  datatype Trigger = Trigger(componentId: string, event: string, channel: string,
                             above: Option<real>, below: Option<real>)

  datatype Condition = Condition(componentId: string, condition: string)

  datatype Action = Action(componentId: string, action: string, args: map<string, Arg>, transform: map<string, string>)

  datatype Automation = Automation(id: string, trigger: Trigger, conditions: seq<Condition>, actions: seq<Action>)

  /** `parts` is the by-id dict of library ids; a library id missing from `library` is its
      FileNotFoundError, an entry of None has no capability block. */
  datatype Context = Context(parts: map<string, string>, library: map<string, Option<Capability>>,
                             melodies: map<string, string>)
  {
    predicate Known(id: string) { id in parts }

    predicate InLibrary(id: string)
      requires Known(id)
    {
      parts[id] in library
    }

    function CapabilityOf(id: string): Option<Capability>
    {
      if Known(id) && InLibrary(id) then library[parts[id]] else None
    }
  }

  // ------------------------------------------------------------- resolution

  function FindProvide(offers: seq<Provide>, t: Trigger): (r: Option<Provide>)
    ensures r.Some? ==> r.value in offers && r.value.event == t.event && r.value.channel == t.channel
    ensures r.None? ==> forall p | p in offers :: !(p.event == t.event && p.channel == t.channel)
  {
    if offers == [] then None
    else if offers[0].event == t.event && offers[0].channel == t.channel then Some(offers[0])
    else FindProvide(offers[1..], t)
  }

  function FindAccept(accepts: seq<Accept>, action: string): (r: Option<Accept>)
    ensures r.Some? ==> r.value in accepts && r.value.action == action
    ensures r.None? ==> forall a | a in accepts :: a.action != action
  {
    if accepts == [] then None
    else if accepts[0].action == action then Some(accepts[0])
    else FindAccept(accepts[1..], action)
  }

  function FindCheck(checks: seq<Check>, condition: string): (r: Option<Check>)
    ensures r.Some? ==> r.value in checks && r.value.condition == condition
    ensures r.None? ==> forall c | c in checks :: c.condition != condition
  {
    if checks == [] then None
    else if checks[0].condition == condition then Some(checks[0])
    else FindCheck(checks[1..], condition)
  }

  /** The params key an event lowers to. */
  function EventKey(p: Provide): string
  {
    if p.esphome != "" then p.esphome
    else if p.channel != "" then p.channel + "_" + p.event
    else p.event
  }

  function TriggerKey(ctx: Context, t: Trigger): Option<string>
  {
    match ctx.CapabilityOf(t.componentId)
    case None => None
    case Some(cap) =>
      match FindProvide(cap.offers, t)
      case None => None
      case Some(p) => Some(EventKey(p))
  }

  // ---------------------------------------------------------------- lowering

  datatype Emitted =
    | Short(verb: string, target: string)
    | Long(verb: string, args: map<string, Arg>)

  datatype Guard = Guard(verb: string, target: string)

  datatype Entry =
    | Do(action: Emitted)
    | If(guards: seq<Guard>, then_: seq<Emitted>)
    | Range(above: Option<real>, below: Option<real>, body: seq<Entry>)

  function Song(a: Action): Option<Arg>
  {
    if "song" in a.args && a.args["song"] != Null then Some(a.args["song"]) else None
  }

  predicate KnownSong(ctx: Context, song: Arg)
  {
    song.Text? && song.text in ctx.melodies
  }

  function LongArgs(ctx: Context, a: Action): map<string, Arg>
    requires Song(a).Some? ==> KnownSong(ctx, Song(a).value)
  {
    var named := map["id" := Text(a.componentId)] + a.args;
    var popped := named - {"song"};
    var played := if Song(a).Some? then popped["rtttl" := Text(ctx.melodies[Song(a).value.text])] else popped;
    played + map name | name in a.transform :: Lambda(a.transform[name])
  }

  /** One lowered action; None when it is dropped. */
  function LowerAction(ctx: Context, a: Action): Option<Emitted>
  {
    match ctx.CapabilityOf(a.componentId)
    case None => None
    case Some(cap) =>
      match FindAccept(cap.accepts, a.action)
      case None => None
      case Some(accept) =>
        if a.args == map[] && a.transform == map[] then Some(Short(accept.esphome, a.componentId))
        else if Song(a).Some? && !KnownSong(ctx, Song(a).value) then None
        else Some(Long(accept.esphome, LongArgs(ctx, a)))
  }

  function LowerCondition(ctx: Context, c: Condition): Option<Guard>
  {
    match ctx.CapabilityOf(c.componentId)
    case None => None
    case Some(cap) =>
      match FindCheck(cap.checks, c.condition)
      case None => None
      case Some(check) => Some(Guard(check.esphome, c.componentId))
  }

  function LowerActions(ctx: Context, actions: seq<Action>, n: nat): seq<Emitted>
    requires n <= |actions|
  {
    if n == 0 then []
    else
      var lowered := LowerAction(ctx, actions[n - 1]);
      LowerActions(ctx, actions, n - 1) + if lowered.Some? then [lowered.value] else []
  }

  function LowerConditions(ctx: Context, conditions: seq<Condition>, n: nat): seq<Guard>
    requires n <= |conditions|
  {
    if n == 0 then []
    else
      var lowered := LowerCondition(ctx, conditions[n - 1]);
      LowerConditions(ctx, conditions, n - 1) + if lowered.Some? then [lowered.value] else []
  }

  function Plain(actions: seq<Emitted>): seq<Entry>
  {
    seq(|actions|, i requires 0 <= i < |actions| => Do(actions[i]))
  }

  function Wrapped(t: Trigger, guards: seq<Guard>, actions: seq<Emitted>): seq<Entry>
  {
    var gated := if guards != [] then [If(guards, actions)] else Plain(actions);
    if t.above.Some? || t.below.Some? then [Range(t.above, t.below, gated)] else gated
  }

  /** What one automation adds, under its trigger component and event key. */
  datatype Contribution = Contribution(componentId: string, key: string, entries: seq<Entry>)

  function Contribute(ctx: Context, auto: Automation): Option<Contribution>
  {
    var key := TriggerKey(ctx, auto.trigger);
    var actions := LowerActions(ctx, auto.actions, |auto.actions|);
    if key.None? || actions == [] then None
    else
      var guards := LowerConditions(ctx, auto.conditions, |auto.conditions|);
      Some(Contribution(auto.trigger.componentId, key.value, Wrapped(auto.trigger, guards, actions)))
  }

  type Lowered = map<string, map<string, seq<Entry>>>

  function Deposit(out: Lowered, c: Contribution): Lowered
  {
    var events := if c.componentId in out then out[c.componentId] else map[];
    var sofar := if c.key in events then events[c.key] else [];
    out[c.componentId := events[c.key := sofar + c.entries]]
  }

  function LowerAll(ctx: Context, autos: seq<Automation>, n: nat): Lowered
    requires n <= |autos|
  {
    if n == 0 then map[]
    else
      var c := Contribute(ctx, autos[n - 1]);
      var out := LowerAll(ctx, autos, n - 1);
      if c.Some? then Deposit(out, c.value) else out
  }

  method CollectActions(ctx: Context, actions: seq<Action>) returns (out: seq<Emitted>)
    ensures out == LowerActions(ctx, actions, |actions|)
  {
    out := [];
    for i := 0 to |actions|
      invariant out == LowerActions(ctx, actions, i)
    {
      var a := actions[i];
      var cap := ctx.CapabilityOf(a.componentId);
      if cap.None? { continue; }
      var accept := FindAccept(cap.value.accepts, a.action);
      if accept.None? { continue; }
      if a.args != map[] || a.transform != map[] {
        if Song(a).Some? && !KnownSong(ctx, Song(a).value) { continue; }
        out := out + [Long(accept.value.esphome, LongArgs(ctx, a))];
      } else {
        out := out + [Short(accept.value.esphome, a.componentId)];
      }
    }
  }

  method CollectGuards(ctx: Context, conditions: seq<Condition>) returns (out: seq<Guard>)
    ensures out == LowerConditions(ctx, conditions, |conditions|)
  {
    out := [];
    for i := 0 to |conditions|
      invariant out == LowerConditions(ctx, conditions, i)
    {
      var cap := ctx.CapabilityOf(conditions[i].componentId);
      if cap.None? { continue; }
      var check := FindCheck(cap.value.checks, conditions[i].condition);
      if check.None? { continue; }
      out := out + [Guard(check.value.esphome, conditions[i].componentId)];
    }
  }

  /** `_lower_automations`. */
  method LowerAutomations(ctx: Context, autos: seq<Automation>) returns (out: Lowered)
    ensures out == LowerAll(ctx, autos, |autos|)
  {
    out := map[];
    for i := 0 to |autos|
      invariant out == LowerAll(ctx, autos, i)
    {
      var auto := autos[i];
      var key := TriggerKey(ctx, auto.trigger);
      if key.None? { continue; }
      var actions := CollectActions(ctx, auto.actions);
      if actions == [] { continue; }
      var guards := CollectGuards(ctx, auto.conditions);
      out := Deposit(out, Contribution(auto.trigger.componentId, key.value, Wrapped(auto.trigger, guards, actions)));
    }
  }

  // --------------------------------------------------------------- validator

  datatype Warning = Warning(automation: string, code: string, componentId: string)

  function WarnIf(condition: bool, w: Warning): seq<Warning>
  {
    if condition then [w] else []
  }

  /** The three ways a reference can fail; an unknown library id stays silent here. */
  function ReferenceWarnings(ctx: Context, id: string, componentId: string): seq<Warning>
  {
    if !ctx.Known(componentId) then [Warning(id, "automation_unknown_component", componentId)]
    else if !ctx.InLibrary(componentId) then []
    else if ctx.CapabilityOf(componentId).None? then [Warning(id, "automation_component_no_capability", componentId)]
    else []
  }

  function BoundsWarnings(id: string, t: Trigger): seq<Warning>
  {
    var bounds := t.above.Some? || t.below.Some?;
    WarnIf(bounds && t.event != "on_value_range", Warning(id, "automation_bounds_require_value_range", t.componentId))
    + WarnIf(t.event == "on_value_range" && !bounds, Warning(id, "automation_value_range_needs_bounds", t.componentId))
  }

  function TriggerWarnings(ctx: Context, id: string, t: Trigger): seq<Warning>
  {
    var cap := ctx.CapabilityOf(t.componentId);
    if cap.None? then ReferenceWarnings(ctx, id, t.componentId)
    else WarnIf(FindProvide(cap.value.offers, t).None?, Warning(id, "automation_unknown_event", t.componentId))
  }

  function ConditionWarnings(ctx: Context, id: string, c: Condition): seq<Warning>
  {
    var cap := ctx.CapabilityOf(c.componentId);
    if cap.None? then ReferenceWarnings(ctx, id, c.componentId)
    else WarnIf(FindCheck(cap.value.checks, c.condition).None?,
                Warning(id, "automation_unknown_predicate", c.componentId))
  }

  function ActionWarnings(ctx: Context, id: string, a: Action): seq<Warning>
  {
    var cap := ctx.CapabilityOf(a.componentId);
    if cap.None? then ReferenceWarnings(ctx, id, a.componentId)
    else
      WarnIf(FindAccept(cap.value.accepts, a.action).None?, Warning(id, "automation_unknown_action", a.componentId))
      + WarnIf(Song(a).Some? && !KnownSong(ctx, Song(a).value), Warning(id, "automation_unknown_song", a.componentId))
      + WarnIf(a.action == "play" && Song(a).None? && "rtttl" !in a.args,
               Warning(id, "automation_play_needs_song", a.componentId))
  }

  function AllConditionWarnings(ctx: Context, id: string, conditions: seq<Condition>, n: nat): seq<Warning>
    requires n <= |conditions|
  {
    if n == 0 then []
    else AllConditionWarnings(ctx, id, conditions, n - 1) + ConditionWarnings(ctx, id, conditions[n - 1])
  }

  function AllActionWarnings(ctx: Context, id: string, actions: seq<Action>, n: nat): seq<Warning>
    requires n <= |actions|
  {
    if n == 0 then [] else AllActionWarnings(ctx, id, actions, n - 1) + ActionWarnings(ctx, id, actions[n - 1])
  }

  function WarningsOf(ctx: Context, auto: Automation): seq<Warning>
  {
    BoundsWarnings(auto.id, auto.trigger)
    + TriggerWarnings(ctx, auto.id, auto.trigger)
    + AllConditionWarnings(ctx, auto.id, auto.conditions, |auto.conditions|)
    + AllActionWarnings(ctx, auto.id, auto.actions, |auto.actions|)
  }

  function Validate(ctx: Context, autos: seq<Automation>, n: nat): seq<Warning>
    requires n <= |autos|
  {
    if n == 0 then [] else Validate(ctx, autos, n - 1) + WarningsOf(ctx, autos[n - 1])
  }

  method CollectWarnings(ctx: Context, auto: Automation) returns (out: seq<Warning>)
    ensures out == WarningsOf(ctx, auto)
  {
    hide BoundsWarnings, TriggerWarnings, ConditionWarnings, ActionWarnings;
    out := BoundsWarnings(auto.id, auto.trigger) + TriggerWarnings(ctx, auto.id, auto.trigger);
    ghost var head := out;
    for k := 0 to |auto.conditions|
      invariant out == head + AllConditionWarnings(ctx, auto.id, auto.conditions, k)
    {
      out := out + ConditionWarnings(ctx, auto.id, auto.conditions[k]);
    }
    ghost var middle := out;
    for k := 0 to |auto.actions|
      invariant out == middle + AllActionWarnings(ctx, auto.id, auto.actions, k)
    {
      out := out + ActionWarnings(ctx, auto.id, auto.actions[k]);
    }
  }

  /** `validate_automations`. */
  method ValidateAutomations(ctx: Context, autos: seq<Automation>) returns (out: seq<Warning>)
    ensures out == Validate(ctx, autos, |autos|)
  {
    out := [];
    for i := 0 to |autos|
      invariant out == Validate(ctx, autos, i)
    {
      hide WarningsOf;
      var warnings := CollectWarnings(ctx, autos[i]);
      out := out + warnings;
    }
  }

  // --------------------------------------------------------------- agreement

  /** A reference whose library entry is missing: the one silent way to be dropped. */
  predicate Unresolved(ctx: Context, componentId: string)
  {
    ctx.Known(componentId) && !ctx.InLibrary(componentId)
  }

  predicate PlayWithoutSong(a: Action)
  {
    a.action == "play" && Song(a).None? && "rtttl" !in a.args
  }

  /** Piece by piece, exactly: an action is dropped in silence only over a missing library
      entry, and an action without a warning is lowered. */
  lemma ActionAgreement(ctx: Context, id: string, a: Action)
    ensures LowerAction(ctx, a).None? && ActionWarnings(ctx, id, a) == [] <==> Unresolved(ctx, a.componentId)
    ensures ActionWarnings(ctx, id, a) == [] && !Unresolved(ctx, a.componentId) <==>
      LowerAction(ctx, a).Some? && !PlayWithoutSong(a)
    ensures forall w | w in ActionWarnings(ctx, id, a) :: w.automation == id && w.componentId == a.componentId
  {
  }

  lemma ConditionAgreement(ctx: Context, id: string, c: Condition)
    ensures LowerCondition(ctx, c).None? && ConditionWarnings(ctx, id, c) == [] <==> Unresolved(ctx, c.componentId)
    ensures ConditionWarnings(ctx, id, c) == [] && !Unresolved(ctx, c.componentId) <==> LowerCondition(ctx, c).Some?
    ensures forall w | w in ConditionWarnings(ctx, id, c) :: w.automation == id && w.componentId == c.componentId
  {
  }

  lemma TriggerAgreement(ctx: Context, id: string, t: Trigger)
    ensures TriggerKey(ctx, t).None? && TriggerWarnings(ctx, id, t) == [] <==> Unresolved(ctx, t.componentId)
    ensures TriggerWarnings(ctx, id, t) == [] && !Unresolved(ctx, t.componentId) <==> TriggerKey(ctx, t).Some?
    ensures forall w | w in TriggerWarnings(ctx, id, t) :: w.automation == id && w.componentId == t.componentId
  {
  }

  /** Every reference of the automation has a library entry. */
  predicate Resolves(ctx: Context, auto: Automation)
  {
    && !Unresolved(ctx, auto.trigger.componentId)
    && (forall c | c in auto.conditions :: !Unresolved(ctx, c.componentId))
    && (forall a | a in auto.actions :: !Unresolved(ctx, a.componentId))
  }

  lemma {:induction false} QuietActions(ctx: Context, id: string, actions: seq<Action>, n: nat)
    requires n <= |actions| && AllActionWarnings(ctx, id, actions, n) == []
    requires forall a | a in actions :: !Unresolved(ctx, a.componentId)
    ensures |LowerActions(ctx, actions, n)| == n
    ensures forall i :: 0 <= i < n ==> LowerAction(ctx, actions[i]) == Some(LowerActions(ctx, actions, n)[i])
  {
    hide ActionWarnings, LowerAction, Unresolved, PlayWithoutSong;
    if n > 0 {
      var before, last := AllActionWarnings(ctx, id, actions, n - 1), ActionWarnings(ctx, id, actions[n - 1]);
      assert |before + last| == 0;
      QuietActions(ctx, id, actions, n - 1);
      ActionAgreement(ctx, id, actions[n - 1]);
    }
  }

  lemma {:induction false} QuietConditions(ctx: Context, id: string, conditions: seq<Condition>, n: nat)
    requires n <= |conditions| && AllConditionWarnings(ctx, id, conditions, n) == []
    requires forall c | c in conditions :: !Unresolved(ctx, c.componentId)
    ensures |LowerConditions(ctx, conditions, n)| == n
    ensures forall i :: 0 <= i < n ==>
      LowerCondition(ctx, conditions[i]) == Some(LowerConditions(ctx, conditions, n)[i])
  {
    hide ConditionWarnings, LowerCondition, Unresolved;
    if n > 0 {
      var before, last := AllConditionWarnings(ctx, id, conditions, n - 1),
          ConditionWarnings(ctx, id, conditions[n - 1]);
      assert |before + last| == 0;
      QuietConditions(ctx, id, conditions, n - 1);
      ConditionAgreement(ctx, id, conditions[n - 1]);
    }
  }

  /** With guards, one `if` that holds them all and runs all the actions; without, the actions
      one by one. */
  ghost predicate IsBody(entries: seq<Entry>, guards: seq<Guard>, actions: seq<Emitted>)
  {
    if guards != [] then |entries| == 1 && entries[0].If? && entries[0].guards == guards && entries[0].then_ == actions
    else |entries| == |actions| && forall i :: 0 <= i < |actions| ==> entries[i] == Do(actions[i])
  }

  /** With a bound, one range entry that holds both bounds and the body; without, the body. */
  ghost predicate IsLowered(entries: seq<Entry>, t: Trigger, guards: seq<Guard>, actions: seq<Emitted>)
  {
    if t.above.Some? || t.below.Some? then
      && |entries| == 1 && entries[0].Range? && entries[0].above == t.above && entries[0].below == t.below
      && IsBody(entries[0].body, guards, actions)
    else IsBody(entries, guards, actions)
  }

  /** What an automation contributes: nothing without a key or an action left, else, under its
      component and key, its bounds, its conditions and its actions, none left out. */
  lemma ContributesExactly(ctx: Context, auto: Automation)
    ensures
      var actions := LowerActions(ctx, auto.actions, |auto.actions|);
      var guards := LowerConditions(ctx, auto.conditions, |auto.conditions|);
      match Contribute(ctx, auto)
      case None => TriggerKey(ctx, auto.trigger).None? || actions == []
      case Some(c) =>
        && TriggerKey(ctx, auto.trigger) == Some(c.key) && actions != []
        && c.componentId == auto.trigger.componentId
        && IsLowered(c.entries, auto.trigger, guards, actions)
  {
    hide TriggerKey, LowerActions, LowerConditions;
  }

  /** No warning means nothing lost: the automation is lowered under its event key with every
      action and every condition, in order, under its bounds if it has any. */
  lemma QuietMeansComplete(ctx: Context, auto: Automation)
    requires Resolves(ctx, auto) && auto.actions != [] && WarningsOf(ctx, auto) == []
    ensures
      var key := TriggerKey(ctx, auto.trigger);
      var actions := LowerActions(ctx, auto.actions, |auto.actions|);
      var guards := LowerConditions(ctx, auto.conditions, |auto.conditions|);
      && key.Some? && |actions| == |auto.actions| && |guards| == |auto.conditions|
      && (forall i :: 0 <= i < |actions| ==> LowerAction(ctx, auto.actions[i]) == Some(actions[i]))
      && (forall i :: 0 <= i < |guards| ==> LowerCondition(ctx, auto.conditions[i]) == Some(guards[i]))
      && Contribute(ctx, auto).Some?
      && (var c := Contribute(ctx, auto).value;
          && c.componentId == auto.trigger.componentId && c.key == key.value
          && IsLowered(c.entries, auto.trigger, guards, actions))
  {
    ContributesExactly(ctx, auto);
    hide Contribute, IsLowered;
    TriggerAgreement(ctx, auto.id, auto.trigger);
    QuietActions(ctx, auto.id, auto.actions, |auto.actions|);
    QuietConditions(ctx, auto.id, auto.conditions, |auto.conditions|);
  }

  lemma {:induction false} WarnedAction(ctx: Context, id: string, actions: seq<Action>, n: nat, i: nat, w: Warning)
    requires i < n <= |actions| && w in ActionWarnings(ctx, id, actions[i])
    ensures w in AllActionWarnings(ctx, id, actions, n)
  {
    hide ActionWarnings;
    if i < n - 1 {
      WarnedAction(ctx, id, actions, n - 1, i, w);
    }
  }

  lemma {:induction false} WarnedCondition(ctx: Context, id: string, conditions: seq<Condition>,
                                n: nat, i: nat, w: Warning)
    requires i < n <= |conditions| && w in ConditionWarnings(ctx, id, conditions[i])
    ensures w in AllConditionWarnings(ctx, id, conditions, n)
  {
    hide ConditionWarnings;
    if i < n - 1 {
      WarnedCondition(ctx, id, conditions, n - 1, i, w);
    }
  }

  lemma {:induction false} WarnedAutomation(ctx: Context, autos: seq<Automation>, n: nat, k: nat, w: Warning)
    requires k < n <= |autos| && w in WarningsOf(ctx, autos[k])
    ensures w in Validate(ctx, autos, n)
  {
    hide WarningsOf;
    if k < n - 1 {
      WarnedAutomation(ctx, autos, n - 1, k, w);
    }
  }

  /** Some warning of the validator names this automation and this component. */
  ghost predicate Reported(ctx: Context, autos: seq<Automation>, id: string, componentId: string)
  {
    exists w :: w in Validate(ctx, autos, |autos|) && w.automation == id && w.componentId == componentId
  }

  /** Whatever the lowering drops, the validator names: a trigger that has no key, an action,
      a condition, each under its automation's id and its own component. */
  lemma DroppedIsReported(ctx: Context, autos: seq<Automation>, k: nat)
    requires k < |autos| && Resolves(ctx, autos[k])
    ensures TriggerKey(ctx, autos[k].trigger).None? ==>
      Reported(ctx, autos, autos[k].id, autos[k].trigger.componentId)
    ensures forall i :: 0 <= i < |autos[k].actions| && LowerAction(ctx, autos[k].actions[i]).None? ==>
      Reported(ctx, autos, autos[k].id, autos[k].actions[i].componentId)
    ensures forall i :: 0 <= i < |autos[k].conditions| && LowerCondition(ctx, autos[k].conditions[i]).None? ==>
      Reported(ctx, autos, autos[k].id, autos[k].conditions[i].componentId)
  {
    var auto := autos[k];
    hide TriggerKey, LowerAction, LowerCondition, TriggerWarnings, ActionWarnings, ConditionWarnings, BoundsWarnings,
      Unresolved, PlayWithoutSong, Validate;
    TriggerAgreement(ctx, auto.id, auto.trigger);
    if TriggerKey(ctx, auto.trigger).None? {
      WarnedAutomation(ctx, autos, |autos|, k, TriggerWarnings(ctx, auto.id, auto.trigger)[0]);
    }
    forall i | 0 <= i < |auto.actions| && LowerAction(ctx, auto.actions[i]).None?
      ensures Reported(ctx, autos, auto.id, auto.actions[i].componentId)
    {
      ActionAgreement(ctx, auto.id, auto.actions[i]);
      var w := ActionWarnings(ctx, auto.id, auto.actions[i])[0];
      WarnedAction(ctx, auto.id, auto.actions, |auto.actions|, i, w);
      WarnedAutomation(ctx, autos, |autos|, k, w);
    }
    forall i | 0 <= i < |auto.conditions| && LowerCondition(ctx, auto.conditions[i]).None?
      ensures Reported(ctx, autos, auto.id, auto.conditions[i].componentId)
    {
      ConditionAgreement(ctx, auto.id, auto.conditions[i]);
      var w := ConditionWarnings(ctx, auto.id, auto.conditions[i])[0];
      WarnedCondition(ctx, auto.id, auto.conditions, |auto.conditions|, i, w);
      WarnedAutomation(ctx, autos, |autos|, k, w);
    }
  }

  /** An automation without warnings is dropped exactly when it has no actions. */
  lemma SilentOnlyWithoutActions(ctx: Context, auto: Automation)
    requires Resolves(ctx, auto) && WarningsOf(ctx, auto) == []
    ensures Contribute(ctx, auto).None? <==> auto.actions == []
  {
    if auto.actions != [] {
      QuietMeansComplete(ctx, auto);
    }
  }

  /** The validator's reason for its bounds warning does not hold of the lowering: bounds on
      any event become a range entry. */
  lemma BoundsAreKept(ctx: Context, auto: Automation)
    requires Contribute(ctx, auto).Some? && (auto.trigger.above.Some? || auto.trigger.below.Some?)
    ensures
      var entries := Contribute(ctx, auto).value.entries;
      && |entries| == 1 && entries[0].Range? && entries[0].above == auto.trigger.above
      && entries[0].below == auto.trigger.below
      && IsBody(entries[0].body, LowerConditions(ctx, auto.conditions, |auto.conditions|),
                LowerActions(ctx, auto.actions, |auto.actions|))
  {
    ContributesExactly(ctx, auto);
    hide Contribute, IsBody;
  }

  // -------------------------------------------- automations sharing a trigger

  /** What the first n automations put under one component and event key, in design order. */
  function Under(ctx: Context, autos: seq<Automation>, n: nat, componentId: string, key: string): seq<Entry>
    requires n <= |autos|
  {
    if n == 0 then []
    else
      var c := Contribute(ctx, autos[n - 1]);
      Under(ctx, autos, n - 1, componentId, key)
      + if c.Some? && c.value.componentId == componentId && c.value.key == key then c.value.entries else []
  }

  function EntriesAt(out: Lowered, componentId: string, key: string): seq<Entry>
  {
    if componentId in out && key in out[componentId] then out[componentId][key] else []
  }

  /** Automations on the same event do not overwrite each other: every list is the
      concatenation of their contributions, and nothing else is in the map. */
  lemma {:induction false} SharedEventsConcatenate(ctx: Context, autos: seq<Automation>, n: nat,
                                componentId: string, key: string)
    requires n <= |autos|
    ensures EntriesAt(LowerAll(ctx, autos, n), componentId, key) == Under(ctx, autos, n, componentId, key)
  {
    hide Contribute;
    if n > 0 {
      SharedEventsConcatenate(ctx, autos, n - 1, componentId, key);
    }
  }
}
