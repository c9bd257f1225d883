/** What a lowered automation does, told from the automation and the capabilities, and what
    each of the validator's codes means (wirestudio/generate/yaml_gen.py:190-254,
    wirestudio/intent.py:56-196). */
module AutomationOutcomes {
  import opened Options
  import opened Selections
  import opened Automations

  // ------------------------------------------------------------- capabilities

  /** The component is in the design and its library entry has this capability block. */
  predicate Offers(ctx: Context, componentId: string, cap: Capability)
  {
    componentId in ctx.parts && ctx.parts[componentId] in ctx.library
    && ctx.library[ctx.parts[componentId]] == Some(cap)
  }

  predicate FirstAcceptAt(accepts: seq<Accept>, k: int, action: string)
  {
    0 <= k < |accepts| && accepts[k].action == action && forall j :: 0 <= j < k ==> accepts[j].action != action
  }

  predicate FirstCheckAt(checks: seq<Check>, k: int, condition: string)
  {
    0 <= k < |checks| && checks[k].condition == condition && forall j :: 0 <= j < k ==> checks[j].condition != condition
  }

  predicate Provides(p: Provide, t: Trigger)
  {
    p.event == t.event && p.channel == t.channel
  }

  predicate FirstProvideAt(offers: seq<Provide>, k: int, t: Trigger)
  {
    0 <= k < |offers| && Provides(offers[k], t) && forall j :: 0 <= j < k ==> !Provides(offers[j], t)
  }

  lemma {:induction false} AcceptIsFirst(accepts: seq<Accept>, action: string)
    ensures forall k :: FirstAcceptAt(accepts, k, action) ==> FindAccept(accepts, action) == Some(accepts[k])
    ensures FindAccept(accepts, action).Some? ==> exists k :: FirstAcceptAt(accepts, k, action)
  {
    if accepts != [] {
      if accepts[0].action == action {
        assert FirstAcceptAt(accepts, 0, action);
      } else {
        AcceptIsFirst(accepts[1..], action);
        forall k | FirstAcceptAt(accepts, k, action) ensures FirstAcceptAt(accepts[1..], k - 1, action) {
        }
        forall k | FirstAcceptAt(accepts[1..], k, action) ensures FirstAcceptAt(accepts, k + 1, action) {
          assert accepts[k + 1] == accepts[1..][k];
          forall j | 0 <= j < k + 1 ensures accepts[j].action != action {
            assert j > 0 ==> accepts[j] == accepts[1..][j - 1];
          }
        }
      }
    }
  }

  lemma {:induction false} CheckIsFirst(checks: seq<Check>, condition: string)
    ensures forall k :: FirstCheckAt(checks, k, condition) ==> FindCheck(checks, condition) == Some(checks[k])
    ensures FindCheck(checks, condition).Some? ==> exists k :: FirstCheckAt(checks, k, condition)
  {
    if checks != [] {
      if checks[0].condition == condition {
        assert FirstCheckAt(checks, 0, condition);
      } else {
        CheckIsFirst(checks[1..], condition);
        forall k | FirstCheckAt(checks, k, condition) ensures FirstCheckAt(checks[1..], k - 1, condition) {
        }
        forall k | FirstCheckAt(checks[1..], k, condition) ensures FirstCheckAt(checks, k + 1, condition) {
          assert checks[k + 1] == checks[1..][k];
          forall j | 0 <= j < k + 1 ensures checks[j].condition != condition {
            assert j > 0 ==> checks[j] == checks[1..][j - 1];
          }
        }
      }
    }
  }

  lemma {:induction false} ProvideIsFirst(offers: seq<Provide>, t: Trigger)
    ensures forall k :: FirstProvideAt(offers, k, t) ==> FindProvide(offers, t) == Some(offers[k])
    ensures FindProvide(offers, t).Some? ==> exists k :: FirstProvideAt(offers, k, t)
  {
    if offers != [] {
      if Provides(offers[0], t) {
        assert FirstProvideAt(offers, 0, t);
      } else {
        ProvideIsFirst(offers[1..], t);
        forall k | FirstProvideAt(offers, k, t) ensures FirstProvideAt(offers[1..], k - 1, t) {
        }
        forall k | FirstProvideAt(offers[1..], k, t) ensures FirstProvideAt(offers, k + 1, t) {
          assert offers[k + 1] == offers[1..][k];
          forall j | 0 <= j < k + 1 ensures !Provides(offers[j], t) {
            assert j > 0 ==> offers[j] == offers[1..][j - 1];
          }
        }
      }
    }
  }

  // -------------------------------------------------------- what is lowered to

  /** The key an event lowers to: the offer's own override, else channel and event. */
  predicate IsKey(key: string, p: Provide)
  {
    && (p.esphome != "" ==> key == p.esphome)
    && (p.esphome == "" && p.channel != "" ==> key == p.channel + "_" + p.event)
    && (p.esphome == "" && p.channel == "" ==> key == p.event)
  }

  lemma KeyExactly(ctx: Context, t: Trigger)
    ensures TriggerKey(ctx, t).Some? <==>
      exists cap :: Offers(ctx, t.componentId, cap) && exists p :: p in cap.offers && Provides(p, t)
    ensures forall cap, k :: Offers(ctx, t.componentId, cap) && FirstProvideAt(cap.offers, k, t) ==>
      TriggerKey(ctx, t).Some? && IsKey(TriggerKey(ctx, t).value, cap.offers[k])
  {
    if ctx.CapabilityOf(t.componentId).Some? {
      var cap := ctx.CapabilityOf(t.componentId).value;
      assert Offers(ctx, t.componentId, cap);
      ProvideIsFirst(cap.offers, t);
    }
  }

  /** A condition lowers to the first matching check's key on its component. */
  lemma ConditionExactly(ctx: Context, c: Condition)
    ensures LowerCondition(ctx, c).Some? <==>
      exists cap :: Offers(ctx, c.componentId, cap) && exists x :: x in cap.checks && x.condition == c.condition
    ensures forall cap, k :: Offers(ctx, c.componentId, cap) && FirstCheckAt(cap.checks, k, c.condition) ==>
      LowerCondition(ctx, c) == Some(Guard(cap.checks[k].esphome, c.componentId))
  {
    if ctx.CapabilityOf(c.componentId).Some? {
      var cap := ctx.CapabilityOf(c.componentId).value;
      assert Offers(ctx, c.componentId, cap);
      CheckIsFirst(cap.checks, c.condition);
    }
  }

  /** The action names a song, and no melody has that name. */
  predicate UnknownSong(ctx: Context, a: Action)
  {
    "song" in a.args && a.args["song"] != Null
    && !(a.args["song"].Text? && a.args["song"].text in ctx.melodies)
  }

  /** The value under a name in an action's long form: transforms over the song's melody over
      the arguments over the component's id; the song itself is not passed on. */
  function ArgUnder(ctx: Context, a: Action, name: string): Option<Arg>
    requires !UnknownSong(ctx, a)
  {
    if name in a.transform then Some(Lambda(a.transform[name]))
    else if name == "rtttl" && "song" in a.args && a.args["song"] != Null
      then Some(Text(ctx.melodies[a.args["song"].text]))
    else if name == "song" then None
    else if name in a.args then Some(a.args[name])
    else if name == "id" then Some(Text(a.componentId))
    else None
  }

  lemma LongArgsExactly(ctx: Context, a: Action, name: string)
    requires !UnknownSong(ctx, a)
    ensures Song(a).Some? ==> KnownSong(ctx, Song(a).value)
    ensures ArgUnder(ctx, a, name) == if name in LongArgs(ctx, a) then Some(LongArgs(ctx, a)[name]) else None
  {
    assert "rtttl" != "song" && "id" != "song" by {
      assert "rtttl"[0] == 'r' && "id"[0] == 'i';
    }
  }

  /** The bare component when there is nothing else to say, else every argument by name. */
  ghost predicate LowersTo(ctx: Context, a: Action, accept: Accept, e: Emitted)
    requires !UnknownSong(ctx, a)
  {
    if a.args == map[] && a.transform == map[] then e == Short(accept.esphome, a.componentId)
    else
      && e.Long? && e.verb == accept.esphome
      && forall name :: ArgUnder(ctx, a, name) == if name in e.args then Some(e.args[name]) else None
  }

  /** An action is dropped when its component offers no such action or its song is unknown;
      otherwise it lowers to the first matching action's key, on the bare component when it has
      no arguments and no transforms, and else with its arguments. */
  lemma ActionExactly(ctx: Context, a: Action)
    ensures LowerAction(ctx, a).Some? <==>
      && (exists cap :: Offers(ctx, a.componentId, cap) && exists x :: x in cap.accepts && x.action == a.action)
      && !UnknownSong(ctx, a)
    ensures LowerAction(ctx, a).Some? ==>
      forall cap, k :: Offers(ctx, a.componentId, cap) && FirstAcceptAt(cap.accepts, k, a.action) ==>
        LowersTo(ctx, a, cap.accepts[k], LowerAction(ctx, a).value)
  {
    hide LongArgs, ArgUnder;
    if ctx.CapabilityOf(a.componentId).Some? {
      var cap := ctx.CapabilityOf(a.componentId).value;
      assert Offers(ctx, a.componentId, cap);
      AcceptIsFirst(cap.accepts, a.action);
      if !UnknownSong(ctx, a) {
        forall name {
          LongArgsExactly(ctx, a, name);
        }
      }
    }
  }

  function EachAction(ctx: Context, actions: seq<Action>): seq<Option<Emitted>>
  {
    seq(|actions|, i requires 0 <= i < |actions| => LowerAction(ctx, actions[i]))
  }

  function EachCondition(ctx: Context, conditions: seq<Condition>): seq<Option<Guard>>
  {
    seq(|conditions|, i requires 0 <= i < |conditions| => LowerCondition(ctx, conditions[i]))
  }

  lemma {:induction false} ActionsChosen(ctx: Context, actions: seq<Action>, n: nat)
    requires n <= |actions|
    ensures
      var at, out := Chosen(Filled(EachAction(ctx, actions)), n), LowerActions(ctx, actions, n);
      |at| == |out| && forall k :: 0 <= k < |at| ==> LowerAction(ctx, actions[at[k]]) == Some(out[k])
  {
    hide LowerAction;
    if n > 0 {
      ActionsChosen(ctx, actions, n - 1);
    }
  }

  lemma {:induction false} ConditionsChosen(ctx: Context, conditions: seq<Condition>, n: nat)
    requires n <= |conditions|
    ensures
      var at, out := Chosen(Filled(EachCondition(ctx, conditions)), n), LowerConditions(ctx, conditions, n);
      |at| == |out| && forall k :: 0 <= k < |at| ==> LowerCondition(ctx, conditions[at[k]]) == Some(out[k])
  {
    hide LowerCondition;
    if n > 0 {
      ConditionsChosen(ctx, conditions, n - 1);
    }
  }

  /** Nothing that can be lowered is left out, doubled or moved. */
  lemma LoweredInOrder(ctx: Context, auto: Automation) returns (actions: seq<nat>, conditions: seq<nat>)
    ensures Gathers(EachAction(ctx, auto.actions), LowerActions(ctx, auto.actions, |auto.actions|), actions)
    ensures Gathers(EachCondition(ctx, auto.conditions),
                    LowerConditions(ctx, auto.conditions, |auto.conditions|), conditions)
  {
    hide LowerAction, LowerCondition, LowerActions, LowerConditions, Chosen, Gathers;
    actions := Chosen(Filled(EachAction(ctx, auto.actions)), |auto.actions|);
    conditions := Chosen(Filled(EachCondition(ctx, auto.conditions)), |auto.conditions|);
    ActionsChosen(ctx, auto.actions, |auto.actions|);
    ConditionsChosen(ctx, auto.conditions, |auto.conditions|);
    ChosenGathers(EachAction(ctx, auto.actions), LowerActions(ctx, auto.actions, |auto.actions|));
    ChosenGathers(EachCondition(ctx, auto.conditions), LowerConditions(ctx, auto.conditions, |auto.conditions|));
  }

  // --------------------------------------------------------- validator's codes

  /** What a code says of a reference to a component. */
  predicate ReferenceFault(ctx: Context, componentId: string, code: string)
  {
    match code
    case "automation_unknown_component" => componentId !in ctx.parts
    case "automation_component_no_capability" =>
      && componentId in ctx.parts && ctx.parts[componentId] in ctx.library
      && ctx.library[ctx.parts[componentId]] == None
    case _ => false
  }

  ghost predicate TriggerFault(ctx: Context, t: Trigger, code: string)
  {
    || ReferenceFault(ctx, t.componentId, code)
    || (code == "automation_bounds_require_value_range"
        && (t.above.Some? || t.below.Some?) && t.event != "on_value_range")
    || (code == "automation_value_range_needs_bounds"
        && t.above.None? && t.below.None? && t.event == "on_value_range")
    || (code == "automation_unknown_event"
        && exists cap :: Offers(ctx, t.componentId, cap) && forall p | p in cap.offers :: !Provides(p, t))
  }

  ghost predicate ConditionFault(ctx: Context, c: Condition, code: string)
  {
    || ReferenceFault(ctx, c.componentId, code)
    || (code == "automation_unknown_predicate"
        && exists cap :: Offers(ctx, c.componentId, cap) && forall x | x in cap.checks :: x.condition != c.condition)
  }

  ghost predicate ActionFault(ctx: Context, a: Action, code: string)
  {
    || ReferenceFault(ctx, a.componentId, code)
    || (exists cap :: Offers(ctx, a.componentId, cap) &&
          match code
          case "automation_unknown_action" => forall x | x in cap.accepts :: x.action != a.action
          case "automation_unknown_song" => UnknownSong(ctx, a)
          case "automation_play_needs_song" =>
            && a.action == "play" && !("song" in a.args && a.args["song"] != Null) && "rtttl" !in a.args
          case _ => false)
  }

  lemma OneCapability(ctx: Context, componentId: string)
    ensures forall cap :: Offers(ctx, componentId, cap) <==> ctx.CapabilityOf(componentId) == Some(cap)
  {
  }

  lemma TriggerTells(ctx: Context, id: string, t: Trigger, w: Warning)
    ensures w in BoundsWarnings(id, t) + TriggerWarnings(ctx, id, t)
       <==> w.automation == id && w.componentId == t.componentId && TriggerFault(ctx, t, w.code)
  {
    OneCapability(ctx, t.componentId);
  }

  lemma ConditionTells(ctx: Context, id: string, c: Condition, w: Warning)
    ensures w in ConditionWarnings(ctx, id, c)
       <==> w.automation == id && w.componentId == c.componentId && ConditionFault(ctx, c, w.code)
  {
    OneCapability(ctx, c.componentId);
  }

  lemma ActionTells(ctx: Context, id: string, a: Action, w: Warning)
    ensures w in ActionWarnings(ctx, id, a)
       <==> w.automation == id && w.componentId == a.componentId && ActionFault(ctx, a, w.code)
  {
    OneCapability(ctx, a.componentId);
  }

  lemma {:induction false} ConditionsTell(ctx: Context, id: string, conditions: seq<Condition>, n: nat, w: Warning)
    requires n <= |conditions|
    ensures w in AllConditionWarnings(ctx, id, conditions, n) <==>
      w.automation == id && exists i ::
        0 <= i < n && conditions[i].componentId == w.componentId && ConditionFault(ctx, conditions[i], w.code)
  {
    hide ConditionWarnings, ConditionFault;
    if n > 0 {
      ConditionsTell(ctx, id, conditions, n - 1, w);
      ConditionTells(ctx, id, conditions[n - 1], w);
    }
  }

  lemma {:induction false} ActionsTell(ctx: Context, id: string, actions: seq<Action>, n: nat, w: Warning)
    requires n <= |actions|
    ensures w in AllActionWarnings(ctx, id, actions, n) <==>
      w.automation == id && exists i ::
        0 <= i < n && actions[i].componentId == w.componentId && ActionFault(ctx, actions[i], w.code)
  {
    hide ActionWarnings, ActionFault;
    if n > 0 {
      ActionsTell(ctx, id, actions, n - 1, w);
      ActionTells(ctx, id, actions[n - 1], w);
    }
  }

  /** The validator's warnings about an automation, exactly: each names the automation and a
      component of its trigger, a condition or an action that has the code's fault. */
  lemma WarningsExactly(ctx: Context, auto: Automation, w: Warning)
    ensures w in WarningsOf(ctx, auto) <==>
      && w.automation == auto.id
      && (|| (w.componentId == auto.trigger.componentId && TriggerFault(ctx, auto.trigger, w.code))
          || (exists i :: 0 <= i < |auto.conditions| && auto.conditions[i].componentId == w.componentId
                && ConditionFault(ctx, auto.conditions[i], w.code))
          || (exists i :: 0 <= i < |auto.actions| && auto.actions[i].componentId == w.componentId
                && ActionFault(ctx, auto.actions[i], w.code)))
  {
    hide BoundsWarnings, TriggerWarnings, AllConditionWarnings, AllActionWarnings,
      TriggerFault, ConditionFault, ActionFault;
    TriggerTells(ctx, auto.id, auto.trigger, w);
    ConditionsTell(ctx, auto.id, auto.conditions, |auto.conditions|, w);
    ActionsTell(ctx, auto.id, auto.actions, |auto.actions|, w);
  }
}
