/**
 * The reactor console controller of reactorconsole/reactorlocal.py, the
 * revision that talks to its backend over a message socket instead of the
 * task-box framework. `ReactorConsole` receives backend states from the
 * socket, and when a commit is accepted it schedules `_zmq_send_fixed`, which
 * marks the state fixed and publishes it.
 *
 * The handlers it shares with the other revision follow the same functions of
 * ConsoleLogic; the socket is modelled by the list of published states.
 */
module ReactorLocal {
  import opened Wrappers
  import opened Json
  import opened ConsoleLogic

  /** The random blinking of the colour LEDs is on by default. */
  const BlinkenlichtenDefault: bool := true

  /** The topic of the messages the backend sends to this controller. */
  const BackendTopic: string := "backend2local"

  /**
   * The state `_zmq_receiver` stores for an incoming message: a missing or
   * null status becomes "undef", everything else is kept as sent.
   */
  function ReceivedState(message: Dict): (r: Dict)
    ensures Lookup(r, "status").Some?
    ensures Lookup(message, "status").Some? ==> r == message
    ensures Lookup(message, "status").None? ==>
              HasText(r, "status", "undef") && r.Keys == message.Keys + {"status"} &&
              forall k :: k in message && k != "status" ==> r[k] == message[k]
  {
    if Lookup(message, "status").None? then message["status" := JStr("undef")] else message
  }

  /** Storing a received state a second time changes nothing. */
  lemma ReceivedStateIdempotent(message: Dict)
    ensures ReceivedState(ReceivedState(message)) == ReceivedState(message)
  {
  }

  /** The fields `_zmq_send_fixed` reads and writes. */
  datatype FixedView = FixedView(
    backendState: Dict,
    toptext: JValue,
    previous: JValue,
    alreadyBroken: bool,
    blink: bool,
    published: seq<Dict>,
    commit: CommitState)

  /** What `_zmq_send_fixed` leaves: the new fields, how it ended, and the display update it started. */
  datatype FixedResult = FixedResult(view: FixedView, outcome: Outcome<string>, started: seq<Command>)

  /**
   * `_zmq_send_fixed`: the status becomes "fixed" first in any case. Without
   * a top text in the backend state the step stops there with a KeyError and
   * the commit stays where it was. Otherwise both top texts become the
   * backend's; a top text the display update cannot format stops the step
   * there with a TypeError. Otherwise the console is no longer broken,
   * blinking is back on, the fixed state is published and the commit is sent.
   */
  function SendFixedStep(v: FixedView): (r: FixedResult)
    ensures r.view.backendState == v.backendState["status" := JStr("fixed")]
    ensures r.outcome.Fail? <==> "toptext" !in v.backendState || !Formattable(v.backendState["toptext"])
    ensures "toptext" !in v.backendState ==> r.view == v.(backendState := r.view.backendState) && r.started == []
    ensures "toptext" in v.backendState && !Formattable(v.backendState["toptext"]) ==>
              r.view == v.(backendState := r.view.backendState, toptext := v.backendState["toptext"],
                           previous := v.backendState["toptext"]) &&
              r.started == []
    ensures r.outcome.Pass? ==>
              r.view.toptext == v.backendState["toptext"] && r.view.previous == v.backendState["toptext"] &&
              !r.view.alreadyBroken && r.view.blink == BlinkenlichtenDefault &&
              r.view.published == v.published + [r.view.backendState] &&
              HasText(r.view.published[|r.view.published| - 1], "status", "fixed") &&
              r.view.commit == CommitSent && r.started == [UpdateTopText(r.view.toptext)]
  {
    var state := v.backendState["status" := JStr("fixed")];
    if "toptext" !in state then FixedResult(v.(backendState := state), Fail("KeyError: 'toptext'"), [])
    else
      var t := state["toptext"];
      if !Formattable(t) then FixedResult(v.(backendState := state, toptext := t, previous := t), Fail("TypeError"), [])
      else
        FixedResult(FixedView(state, t, t, false, BlinkenlichtenDefault, v.published + [state], CommitSent),
                    Pass, [UpdateTopText(t)])
  }

  /**
   * The whole commit: a committed console with matching gauges moves to
   * `send_commit`; the fixed-send step then publishes a fixed state and
   * reaches `commit_sent`, and the arm/commit handler that sees `commit_sent`
   * shows the backend's top text.
   */
  lemma CommitPublishesFixed(v: FixedView, pending: bool)
    requires v.commit == Committed && "toptext" in v.backendState && Formattable(v.backendState["toptext"])
    ensures var armed := ArmCommitStep(ArmView(v.commit, v.toptext, v.previous), true, pending).0;
            armed.commit == SendCommit &&
            var fixed := SendFixedStep(v.(commit := armed.commit)).view;
            fixed.commit == CommitSent &&
            HasText(fixed.published[|fixed.published| - 1], "status", "fixed") &&
            ArmCommitStep(ArmView(fixed.commit, fixed.toptext, fixed.previous), true, pending).0.toptext == v.backendState["toptext"]
  {
  }

  /**
   * A backend top text that the display update cannot format (null, a list
   * or an object) stalls the commit: the step fails, nothing is published,
   * the commit stays in `send_commit` and the console stays as broken and
   * blinking as it was.
   */
  lemma UnformattableTopTextStalls(v: FixedView)
    requires v.commit == SendCommit && "toptext" in v.backendState && !Formattable(v.backendState["toptext"])
    ensures var r := SendFixedStep(v);
            r.outcome.Fail? && r.view.commit == SendCommit && r.view.published == v.published &&
            r.view.alreadyBroken == v.alreadyBroken && r.view.blink == v.blink && r.started == []
  {
  }

  /** The controller's state, `ReactorConsole`. */
  class ReactorConsole {
    /** The aliases of the panel's device configuration, in the order `ALIAS_MAP` yields them. */
    var aliases: seq<string>
    var gaugeDirections: map<string, bool>
    var gaugeValues: map<string, real>
    var topledValues: map<string, real>
    var colorledValues: seq<real>
    var backendState: Dict
    var backendStateChangedFlag: bool
    var commitArmState: CommitState
    var toptext: JValue
    var gaugesMatchExpected: bool
    var armPreviousTopText: JValue
    var useRandomBlinkenlichten: bool
    var fullUpdatePending: bool
    var alreadyBroken: bool
    /** The commit state the update loop last handled (`handled_arm_state`, `None` at the start). */
    var handledArmState: Option<CommitState>
    /** How many `_zmq_send_fixed` tasks are scheduled and have not run yet. */
    var pendingSendFixed: nat
    /** The states published to the backend, oldest first. */
    var published: seq<Dict>

    function Switches(): SwitchView
      reads this
    {
      SwitchView(gaugeDirections, commitArmState)
    }

    function Arm(): ArmView
      reads this
    {
      ArmView(commitArmState, toptext, armPreviousTopText)
    }

    function Values(): ConsoleValues
      reads this
    {
      ConsoleValues(gaugeValues, gaugeDirections, topledValues)
    }

    function Fixed(): FixedView
      reads this
    {
      FixedView(backendState, toptext, armPreviousTopText, alreadyBroken, useRandomBlinkenlichten, published, commitArmState)
    }

    /**
     * `__init__` followed by `_init_ardubus_transport`, which loads the alias
     * map; the sockets, the serial transport and logging are not modelled.
     */
    constructor (aliases: seq<string>)
      ensures this.aliases == aliases
      ensures gaugeDirections == map[] && gaugeValues == map[] && topledValues == map[]
      ensures colorledValues == ResetColorLeds()
      ensures backendState == map[] && !backendStateChangedFlag && commitArmState == Uninitialized
      ensures toptext == JStr("") && armPreviousTopText == JStr("") && !gaugesMatchExpected
      ensures useRandomBlinkenlichten == BlinkenlichtenDefault && !fullUpdatePending && !alreadyBroken
      ensures handledArmState == None && pendingSendFixed == 0 && published == []
    {
      this.aliases := aliases;
      gaugeDirections, gaugeValues, topledValues := map[], map[], map[];
      colorledValues := seq(32, _ => 0.0);
      backendState, backendStateChangedFlag, commitArmState := map[], false, Uninitialized;
      toptext, armPreviousTopText, gaugesMatchExpected := JStr(""), JStr(""), false;
      useRandomBlinkenlichten, fullUpdatePending, alreadyBroken := BlinkenlichtenDefault, false, false;
      handledArmState, pendingSendFixed, published := None, 0, [];
    }

    /** `ardubus_callback(event)`. */
    method ArdubusCallback(e: SwitchEvent)
      modifies this`gaugeDirections, this`commitArmState
      ensures Switches() == OnSwitchEvent(old(Switches()), e)
    {
      if Contains(e.alias, "unused") {
        return;
      }
      if e.alias in gaugeDirections {
        gaugeDirections := gaugeDirections[e.alias := !e.state];
        return;
      }
      if e.alias == "commit_arm_key" {
        if e.state {
          commitArmState := Ready;
        }
        if !e.state && commitArmState.Rank() < Armed.Rank() {
          commitArmState := Armed;
        }
        return;
      }
      if e.alias == "commit_push" {
        if e.state && commitArmState == Armed {
          commitArmState := Committed;
        }
        return;
      }
    }

    /**
     * `_local_update_loop_arm_commit(run_coros)`: as in the other revision,
     * and an accepted commit also schedules `_zmq_send_fixed`. The punishment
     * of a wrong commit is not modelled.
     */
    method ArmCommit(runCoros: seq<Command>) returns (coros: seq<Command>)
      modifies this`commitArmState, this`toptext, this`armPreviousTopText, this`pendingSendFixed
      ensures var step := ArmCommitStep(old(Arm()), gaugesMatchExpected, fullUpdatePending);
              Arm() == step.0 && coros == runCoros + step.1
      ensures pendingSendFixed == old(pendingSendFixed) + if old(commitArmState) == Committed && gaugesMatchExpected then 1 else 0
    {
      coros := runCoros;
      if commitArmState == Ready {
        toptext := armPreviousTopText;
        if !fullUpdatePending {
          coros := coros + [UpdateTopText(toptext)];
        }
      }
      if commitArmState == Armed {
        armPreviousTopText := toptext;
        toptext := JStr(ArmedTopText);
        if !fullUpdatePending {
          coros := coros + [UpdateTopText(toptext)];
        }
      }
      if commitArmState == Committed {
        if gaugesMatchExpected {
          commitArmState := SendCommit;
          pendingSendFixed := pendingSendFixed + 1;
        }
      }
      if commitArmState == CommitSent {
        toptext := armPreviousTopText;
        if !fullUpdatePending {
          coros := coros + [UpdateTopText(toptext)];
        }
      }
    }

    /** The update loop runs the arm/commit handler only when the commit state differs from the one it handled last. */
    method ArmCommitOnChange(runCoros: seq<Command>) returns (coros: seq<Command>)
      modifies this`handledArmState, this`commitArmState, this`toptext, this`armPreviousTopText, this`pendingSendFixed
      ensures old(handledArmState) == Some(old(commitArmState)) ==>
                coros == runCoros && Arm() == old(Arm()) && handledArmState == old(handledArmState) &&
                pendingSendFixed == old(pendingSendFixed)
      ensures old(handledArmState) != Some(old(commitArmState)) ==>
                var step := ArmCommitStep(old(Arm()), gaugesMatchExpected, fullUpdatePending);
                Arm() == step.0 && coros == runCoros + step.1 && handledArmState == Some(old(commitArmState)) &&
                pendingSendFixed == old(pendingSendFixed) + if old(commitArmState) == Committed && gaugesMatchExpected then 1 else 0
    {
      coros := runCoros;
      if handledArmState != Some(commitArmState) {
        handledArmState := Some(commitArmState);
        coros := ArmCommit(coros);
      }
    }

    /**
     * A scheduled `_zmq_send_fixed` task runs. `started` is the display update
     * it starts; a KeyError or a TypeError ends it early.
     */
    method SendFixed() returns (outcome: Outcome<string>, started: seq<Command>)
      requires pendingSendFixed > 0
      modifies this`backendState, this`toptext, this`armPreviousTopText, this`alreadyBroken,
               this`useRandomBlinkenlichten, this`published, this`commitArmState, this`pendingSendFixed
      ensures FixedResult(Fixed(), outcome, started) == SendFixedStep(old(Fixed()))
      ensures pendingSendFixed == old(pendingSendFixed) - 1
    {
      ghost var expected := SendFixedStep(Fixed());
      pendingSendFixed := pendingSendFixed - 1;
      started := [];
      assert "toptext" != "status";
      backendState := backendState["status" := JStr("fixed")];
      if "toptext" !in backendState {
        assert FixedResult(Fixed(), Fail("KeyError: 'toptext'"), started) == expected;
        return Fail("KeyError: 'toptext'"), started;
      }
      toptext := backendState["toptext"];
      armPreviousTopText := backendState["toptext"];
      if !Formattable(toptext) {
        assert FixedResult(Fixed(), Fail("TypeError"), started) == expected;
        return Fail("TypeError"), started;
      }
      started := [UpdateTopText(toptext)];
      alreadyBroken := false;
      useRandomBlinkenlichten := BlinkenlichtenDefault;
      published := published + [backendState];
      commitArmState := CommitSent;
      outcome := Pass;
      assert FixedResult(Fixed(), outcome, started) == expected;
    }

    /**
     * One message of `_zmq_receiver`, already decoded: messages on other
     * topics are skipped, a backend state is stored and flagged as changed.
     */
    method ZmqReceive(topic: string, message: Dict)
      modifies this`backendState, this`backendStateChangedFlag
      ensures topic != BackendTopic ==> backendState == old(backendState) && backendStateChangedFlag == old(backendStateChangedFlag)
      ensures topic == BackendTopic ==> backendState == ReceivedState(message) && backendStateChangedFlag
    {
      if topic != BackendTopic {
        return;
      }
      var newState := message;
      if Lookup(newState, "status").None? {
        newState := newState["status" := JStr("undef")];
      }
      backendState := newState;
      backendStateChangedFlag := true;
    }

    /** `_local_update_loop_backend_toptext(run_coros)`. */
    method BackendTopText(runCoros: seq<Command>) returns (coros: seq<Command>)
      modifies this`toptext, this`armPreviousTopText
      ensures var step := BackendTopTextStep(old(Arm()), backendState, fullUpdatePending);
              Arm() == step.0 && coros == runCoros + step.1
    {
      coros := runCoros;
      var newTopText := Lookup(backendState, "toptext");
      if newTopText.Some? {
        armPreviousTopText := newTopText.value;
        if toptext != JStr(ArmedTopText) {
          toptext := newTopText.value;
          if !fullUpdatePending {
            coros := coros + [UpdateTopText(toptext)];
          }
        }
      }
    }

    /** `_local_update_loop_reset_topleds(run_coros)`: one reset of the rod LEDs, unless a full update is pending. */
    method ResetTopLedsCommand(runCoros: seq<Command>) returns (coros: seq<Command>)
      ensures coros == runCoros + if fullUpdatePending then [] else [ResetTopLeds]
    {
      coros := runCoros;
      if !fullUpdatePending {
        coros := coros + [ResetTopLeds];
      }
    }

    /**
     * The block of the update loop that reacts to a new backend state: it
     * runs once per raised flag, stops the random blinking when the state is
     * broken, resets the top LEDs and takes over the backend top text. The
     * broken-state effects it starts are not modelled.
     */
    method OnBackendChange(runCoros: seq<Command>) returns (coros: seq<Command>)
      modifies this`backendStateChangedFlag, this`useRandomBlinkenlichten, this`toptext, this`armPreviousTopText
      ensures !(old(backendStateChangedFlag) && Truthy(backendState)) ==>
                coros == runCoros && backendStateChangedFlag == old(backendStateChangedFlag) &&
                useRandomBlinkenlichten == old(useRandomBlinkenlichten) && Arm() == old(Arm())
      ensures old(backendStateChangedFlag) && Truthy(backendState) ==>
                var step := BackendTopTextStep(old(Arm()), backendState, fullUpdatePending);
                !backendStateChangedFlag &&
                useRandomBlinkenlichten == (old(useRandomBlinkenlichten) && !HasText(backendState, "status", "broken")) &&
                Arm() == step.0 &&
                coros == runCoros + (if fullUpdatePending then [] else [ResetTopLeds]) + step.1
    {
      coros := runCoros;
      if backendStateChangedFlag && Truthy(backendState) {
        backendStateChangedFlag := false;
        if HasText(backendState, "status", "broken") {
          useRandomBlinkenlichten := false;
        }
        coros := ResetTopLedsCommand(coros);
        coros := BackendTopText(coros);
      }
    }

    /** `_reset_console_values()`, without the full hardware update it ends with. */
    method ResetConsoleValues()
      modifies this`toptext, this`gaugeValues, this`gaugeDirections, this`topledValues, this`colorledValues
      ensures Values() == ResetAliases(old(Values()), aliases)
      ensures toptext == JStr("") && colorledValues == ResetColorLeds()
    {
      toptext := JStr("");
      for i := 0 to |aliases|
        invariant Values() == ResetAliases(old(Values()), aliases[..i])
        invariant toptext == JStr("")
      {
        var alias := aliases[i];
        assert aliases[..i + 1][..i] == aliases[..i];
        if EndsWith(alias, "_gauge") {
          gaugeValues := gaugeValues[alias := 0.0];
          var upAlias := UpAlias(alias);
          var dnAlias := DownAlias(alias);
          gaugeDirections := gaugeDirections[upAlias := false];
          gaugeDirections := gaugeDirections[dnAlias := false];
        }
        if EndsWith(alias, "_led") {
          topledValues := topledValues[alias := 0.0];
        }
      }
      assert aliases[..|aliases|] == aliases;
      colorledValues := seq(32, _ => 0.0);
    }

    /** `_update_toptext()`: the text sent to the display, when the top text is a string. */
    method TopTextSendValue() returns (sendValue: Option<string>)
      ensures toptext.JStr? <==> sendValue.Some?
      ensures sendValue.Some? ==> sendValue.value == PadLeft5(toptext.s)
    {
      if toptext.JStr? {
        sendValue := Some(PadLeft5(toptext.s));
      } else {
        sendValue := None;
      }
    }

    /**
     * One pass of the update loop's arm/commit part while a commit is waiting
     * with matching gauges, followed by the fixed-send task it starts.
     */
    method CommitThroughLoop() returns (outcome: Outcome<string>, started: seq<Command>)
      requires commitArmState == Committed && gaugesMatchExpected && handledArmState != Some(Committed)
      modifies this
      ensures commitArmState == (if outcome.Pass? then CommitSent else SendCommit)
      ensures outcome.Pass? <==> "toptext" in old(backendState) && Formattable(old(backendState)["toptext"])
      ensures HasText(backendState, "status", "fixed")
    {
      var coros := ArmCommitOnChange([]);
      outcome, started := SendFixed();
    }
  }
}
