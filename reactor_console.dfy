/**
 * The reactor console controller of reactorconsole/reactorconsole.py, the
 * revision that runs inside the odysseus task-box framework: `ReactorState` receives
 * the backend state through `framework_update` (its task-box callback) and
 * hands the state back when a commit has been sent.
 *
 * The fields the handlers update are fields of the class; each handler is a
 * method tied to a pure function of ConsoleLogic, or to `FrameworkStep` below.
 * The commands the update loop collects for the hardware (`run_coros`) are a
 * sequence the handlers extend.
 */
module ReactorConsole {
  import opened Wrappers
  import opened Json
  import opened ConsoleLogic

  /** The state `framework_update` sets up when the backend gave none. */
  function DefaultBackendState(): (r: Dict)
    ensures r.Keys == {"expected", "lights", "status"}
    ensures HasText(r, "status", "broken") && Truthy(r)
  {
    map["expected" := JObject(map["3_3" := JNum(0.5)]),
        "lights" := JObject(map["3_3" := JBool(true)]),
        "status" := JStr("broken")]
  }

  /** The random blinking of the colour LEDs is on by default. */
  const BlinkenlichtenDefault: bool := true

  /** The fields `framework_update` reads and writes. */
  datatype FrameworkView = FrameworkView(backendState: Option<Dict>, changedFlag: bool, commit: CommitState, blink: bool)

  /** Whether `framework_update` adopts the state it is given: on a backend change, or when it holds none yet. */
  predicate Adopts(v: FrameworkView, state: Option<Dict>, backendChange: bool)
    ensures backendChange ==> Adopts(v, state, backendChange)
    ensures !backendChange && TruthyOpt(v.backendState) ==> !Adopts(v, state, backendChange)
    ensures v.backendState.None? && TruthyOpt(state) ==> Adopts(v, state, backendChange)
  {
    backendChange || (TruthyOpt(state) && !TruthyOpt(v.backendState))
  }

  /** The backend state once `framework_update` has adopted `state` or not, and filled in the default. */
  function FrameworkBase(v: FrameworkView, state: Option<Dict>, backendChange: bool): (r: Dict)
    ensures Adopts(v, state, backendChange) && state.Some? ==> r == state.value
    ensures !Adopts(v, state, backendChange) && v.backendState.Some? ==> r == v.backendState.value
    ensures (if Adopts(v, state, backendChange) then state else v.backendState).None? ==>
              r == DefaultBackendState() && HasText(r, "status", "broken")
  {
    var adopted := if Adopts(v, state, backendChange) then state else v.backendState;
    if adopted.None? then DefaultBackendState() else adopted.value
  }

  /**
   * `framework_update(state, backend_change)`. Afterwards there always is a
   * backend state. In `send_commit` the console moves on to `commit_sent`,
   * marks the state fixed, turns the blinking back on and returns the state
   * for the framework to write; in every other commit state it returns `None`
   * and leaves the commit state and the blinking alone. The change flag is
   * raised whenever the backend state was replaced or changed.
   */
  function FrameworkStep(v: FrameworkView, state: Option<Dict>, backendChange: bool): (r: (FrameworkView, Option<Dict>))
    ensures r.0.backendState.Some?
    ensures r.1.Some? <==> v.commit == SendCommit
    ensures v.commit == SendCommit ==>
              r.0.backendState.value == FrameworkBase(v, state, backendChange)["status" := JStr("fixed")] &&
              r.1 == r.0.backendState && r.0.commit == CommitSent && r.0.blink == BlinkenlichtenDefault
    ensures v.commit != SendCommit ==>
              r.0.backendState.value == FrameworkBase(v, state, backendChange) &&
              r.0.commit == v.commit && r.0.blink == v.blink
    ensures r.0.changedFlag <==>
              v.changedFlag || Adopts(v, state, backendChange) || v.commit == SendCommit ||
              (if Adopts(v, state, backendChange) then state else v.backendState).None?
  {
    var adopt := Adopts(v, state, backendChange);
    var v1 := if adopt then v.(backendState := state, changedFlag := true) else v;
    var v2 := if v1.backendState.None? then v1.(backendState := Some(DefaultBackendState()), changedFlag := true) else v1;
    if v2.commit == SendCommit then
      var v3 := FrameworkView(Some(v2.backendState.value["status" := JStr("fixed")]), true, CommitSent, BlinkenlichtenDefault);
      (v3, v3.backendState)
    else (v2, None)
  }

  /** Without a backend change, a state that is already held is kept whatever the framework passes in. */
  lemma KeepsHeldState(v: FrameworkView, state: Option<Dict>)
    requires TruthyOpt(v.backendState) && v.commit != SendCommit
    ensures FrameworkStep(v, state, false).0.backendState == v.backendState
  {
  }

  /**
   * A committed fix reaches the backend once: the update that sends it
   * leaves `commit_sent`, and the next update returns nothing.
   */
  lemma CommitSentOnce(v: FrameworkView, state: Option<Dict>, backendChange: bool, state2: Option<Dict>, backendChange2: bool)
    requires v.commit == SendCommit
    ensures var first := FrameworkStep(v, state, backendChange);
            first.1.Some? && HasText(first.1.value, "status", "fixed") &&
            FrameworkStep(first.0, state2, backendChange2).1.None?
  {
  }

  /** The top LEDs with those in `done` reset to 0. */
  function ZeroOn(m: map<string, real>, done: set<string>): (r: map<string, real>)
    ensures r.Keys == m.Keys
  {
    map a | a in m :: if a in done then 0.0 else m[a]
  }

  /** The update commands for the LEDs in `done`, or none while a full update is pending. */
  ghost predicate LedCommandsFor(added: seq<Command>, done: set<string>, fullUpdatePending: bool) {
    forall c :: c in added <==> !fullUpdatePending && c.UpdateTopLed? && c.alias in done
  }

  /** No command occurs twice. */
  predicate Distinct(cs: seq<Command>) {
    forall i, j :: 0 <= i < j < |cs| ==> cs[i] != cs[j]
  }

  /** One more LED visited by the loop of `_local_update_loop_reset_topleds`. */
  lemma ResetTopLedStep(m: map<string, real>, done: set<string>, added: seq<Command>, a: string, fullUpdatePending: bool)
    requires a in m && a !in done
    requires LedCommandsFor(added, done, fullUpdatePending) && Distinct(added)
    ensures ZeroOn(m, done)[a := 0.0] == ZeroOn(m, done + {a})
    ensures var next := if fullUpdatePending then added else added + [UpdateTopLed(a)];
            LedCommandsFor(next, done + {a}, fullUpdatePending) && Distinct(next)
  {
    assert UpdateTopLed(a) !in added;
    assert ZeroOn(m, done)[a := 0.0].Keys == ZeroOn(m, done + {a}).Keys;
  }

  /** The controller's state, `ReactorState`. */
  class ReactorState {
    /** The aliases of the panel's device configuration, in the order `ALIAS_MAP` yields them. */
    var aliases: seq<string>
    var gaugeDirections: map<string, bool>
    var gaugeValues: map<string, real>
    var topledValues: map<string, real>
    var colorledValues: seq<real>
    var backendState: Option<Dict>
    var backendStateChangedFlag: bool
    var commitArmState: CommitState
    var toptext: JValue
    var gaugesMatchExpected: bool
    var armPreviousTopText: JValue
    var useRandomBlinkenlichten: bool
    var fullUpdatePending: bool
    /** The commit state the update loop last handled (`handled_arm_state`, `None` at the start). */
    var handledArmState: Option<CommitState>

    function Switches(): SwitchView
      reads this
    {
      SwitchView(gaugeDirections, commitArmState)
    }

    function Arm(): ArmView
      reads this
    {
      ArmView(commitArmState, toptext, armPreviousTopText)
    }

    function Values(): ConsoleValues
      reads this
    {
      ConsoleValues(gaugeValues, gaugeDirections, topledValues)
    }

    function Framework(): FrameworkView
      reads this
    {
      FrameworkView(backendState, backendStateChangedFlag, commitArmState, useRandomBlinkenlichten)
    }

    /**
     * `__init__` followed by `_init_ardubus_transport`, which loads the alias
     * map; the threads, the serial transport and logging are not modelled.
     */
    constructor (aliases: seq<string>)
      ensures this.aliases == aliases
      ensures gaugeDirections == map[] && gaugeValues == map[] && topledValues == map[]
      ensures colorledValues == ResetColorLeds()
      ensures backendState == None && !backendStateChangedFlag && commitArmState == Uninitialized
      ensures toptext == JStr("") && armPreviousTopText == JStr("") && !gaugesMatchExpected
      ensures useRandomBlinkenlichten == BlinkenlichtenDefault && !fullUpdatePending && handledArmState == None
    {
      this.aliases := aliases;
      gaugeDirections, gaugeValues, topledValues := map[], map[], map[];
      colorledValues := seq(32, _ => 0.0);
      backendState, backendStateChangedFlag, commitArmState := None, false, Uninitialized;
      toptext, armPreviousTopText, gaugesMatchExpected := JStr(""), JStr(""), false;
      useRandomBlinkenlichten, fullUpdatePending, handledArmState := BlinkenlichtenDefault, false, None;
    }

    /** `ardubus_callback(event)`. */
    method ArdubusCallback(e: SwitchEvent)
      modifies this`gaugeDirections, this`commitArmState
      ensures Switches() == OnSwitchEvent(old(Switches()), e)
    {
      if Contains(e.alias, "unused") {
        return;
      }
      if e.alias in gaugeDirections {
        gaugeDirections := gaugeDirections[e.alias := !e.state];
        return;
      }
      if e.alias == "commit_arm_key" {
        if e.state {
          commitArmState := Ready;
        }
        if !e.state && commitArmState.Rank() < Armed.Rank() {
          commitArmState := Armed;
        }
        return;
      }
      if e.alias == "commit_push" {
        if e.state && commitArmState == Armed {
          commitArmState := Committed;
        }
        return;
      }
    }

    /** `_local_update_loop_arm_commit(run_coros)`; the punishment of a wrong commit is not modelled. */
    method ArmCommit(runCoros: seq<Command>) returns (coros: seq<Command>)
      modifies this`commitArmState, this`toptext, this`armPreviousTopText
      ensures var step := ArmCommitStep(old(Arm()), gaugesMatchExpected, fullUpdatePending);
              Arm() == step.0 && coros == runCoros + step.1
    {
      coros := runCoros;
      if commitArmState == Ready {
        toptext := armPreviousTopText;
        if !fullUpdatePending {
          coros := coros + [UpdateTopText(toptext)];
        }
      }
      if commitArmState == Armed {
        armPreviousTopText := toptext;
        toptext := JStr(ArmedTopText);
        if !fullUpdatePending {
          coros := coros + [UpdateTopText(toptext)];
        }
      }
      if commitArmState == Committed {
        if gaugesMatchExpected {
          commitArmState := SendCommit;
        }
      }
      if commitArmState == CommitSent {
        toptext := armPreviousTopText;
        if !fullUpdatePending {
          coros := coros + [UpdateTopText(toptext)];
        }
      }
    }

    /** The update loop runs the arm/commit handler only when the commit state differs from the one it handled last. */
    method ArmCommitOnChange(runCoros: seq<Command>) returns (coros: seq<Command>)
      modifies this`handledArmState, this`commitArmState, this`toptext, this`armPreviousTopText
      ensures old(handledArmState) == Some(old(commitArmState)) ==>
                coros == runCoros && Arm() == old(Arm()) && handledArmState == old(handledArmState)
      ensures old(handledArmState) != Some(old(commitArmState)) ==>
                var step := ArmCommitStep(old(Arm()), gaugesMatchExpected, fullUpdatePending);
                Arm() == step.0 && coros == runCoros + step.1 && handledArmState == Some(old(commitArmState))
    {
      coros := runCoros;
      if handledArmState != Some(commitArmState) {
        handledArmState := Some(commitArmState);
        coros := ArmCommit(coros);
      }
    }

    /** `_local_update_loop_backend_toptext(run_coros)`; the loop calls it only with a backend state. */
    method BackendTopText(runCoros: seq<Command>) returns (coros: seq<Command>)
      requires backendState.Some?
      modifies this`toptext, this`armPreviousTopText
      ensures var step := BackendTopTextStep(old(Arm()), backendState.value, fullUpdatePending);
              Arm() == step.0 && coros == runCoros + step.1
    {
      coros := runCoros;
      var newTopText := Lookup(backendState.value, "toptext");
      if newTopText.Some? {
        armPreviousTopText := newTopText.value;
        if toptext != JStr(ArmedTopText) {
          toptext := newTopText.value;
          if !fullUpdatePending {
            coros := coros + [UpdateTopText(toptext)];
          }
        }
      }
    }

    /**
     * `_local_update_loop_reset_topleds(run_coros)`: every top LED goes to 0
     * and, unless a full update is pending, gets one update command. The
     * model leaves the order open; the source visits the LEDs in insertion
     * order, and since each command updates a different LED the order has
     * no effect on the outcome.
     */
    method ResetTopLeds(runCoros: seq<Command>) returns (coros: seq<Command>)
      modifies this`topledValues
      ensures topledValues == map a | a in old(topledValues) :: 0.0
      ensures |coros| >= |runCoros| && coros[..|runCoros|] == runCoros
      ensures LedCommandsFor(coros[|runCoros|..], topledValues.Keys, fullUpdatePending)
      ensures Distinct(coros[|runCoros|..])
    {
      ghost var done: set<string> := {};
      var todo := topledValues.Keys;
      var added: seq<Command> := [];
      assert topledValues == ZeroOn(old(topledValues), done);
      while todo != {}
        invariant done + todo == old(topledValues).Keys && done !! todo
        invariant topledValues == ZeroOn(old(topledValues), done)
        invariant LedCommandsFor(added, done, fullUpdatePending)
        invariant Distinct(added)
        decreases todo
      {
        var a :| a in todo;
        ResetTopLedStep(old(topledValues), done, added, a, fullUpdatePending);
        topledValues := topledValues[a := 0.0];
        if !fullUpdatePending {
          added := added + [UpdateTopLed(a)];
        }
        done := done + {a};
        todo := todo - {a};
      }
      assert done == old(topledValues).Keys;
      coros := runCoros + added;
      assert coros[|runCoros|..] == added;
    }

    /**
     * The block of the update loop that reacts to a new backend state: it
     * runs once per raised flag, stops the random blinking when the state is
     * broken, resets the top LEDs and takes over the backend top text. The
     * broken-state effects it starts are not modelled.
     */
    method OnBackendChange(runCoros: seq<Command>) returns (coros: seq<Command>)
      modifies this`backendStateChangedFlag, this`useRandomBlinkenlichten, this`topledValues,
               this`toptext, this`armPreviousTopText
      ensures !(old(backendStateChangedFlag) && TruthyOpt(backendState)) ==>
                coros == runCoros && backendStateChangedFlag == old(backendStateChangedFlag) &&
                useRandomBlinkenlichten == old(useRandomBlinkenlichten) && topledValues == old(topledValues) &&
                Arm() == old(Arm())
      ensures old(backendStateChangedFlag) && TruthyOpt(backendState) ==>
                !backendStateChangedFlag &&
                useRandomBlinkenlichten == (old(useRandomBlinkenlichten) && !HasText(backendState.value, "status", "broken")) &&
                topledValues == (map a | a in old(topledValues) :: 0.0) &&
                var step := BackendTopTextStep(old(Arm()), backendState.value, fullUpdatePending);
                Arm() == step.0 &&
                |coros| >= |runCoros| + |step.1| && coros[..|runCoros|] == runCoros &&
                LedCommandsFor(coros[|runCoros|..|coros| - |step.1|], old(topledValues).Keys, fullUpdatePending) &&
                Distinct(coros[|runCoros|..|coros| - |step.1|]) &&
                coros[|coros| - |step.1|..] == step.1
    {
      coros := runCoros;
      if backendStateChangedFlag && TruthyOpt(backendState) {
        backendStateChangedFlag := false;
        if HasText(backendState.value, "status", "broken") {
          useRandomBlinkenlichten := false;
        }
        coros := ResetTopLeds(coros);
        var before := coros;
        coros := BackendTopText(coros);
        assert coros[..|before|] == before;
        assert coros[..|runCoros|] == before[..|runCoros|];
        assert coros[|runCoros|..|before|] == before[|runCoros|..];
      }
    }

    /** `framework_update(state, backend_change)`, its task-box callback. */
    method FrameworkUpdate(state: Option<Dict>, backendChange: bool) returns (r: Option<Dict>)
      modifies this`backendState, this`backendStateChangedFlag, this`commitArmState, this`useRandomBlinkenlichten
      ensures (Framework(), r) == FrameworkStep(old(Framework()), state, backendChange)
    {
      if backendChange || (TruthyOpt(state) && !TruthyOpt(backendState)) {
        backendState := state;
        backendStateChangedFlag := true;
      }
      if backendState.None? {
        backendState := Some(DefaultBackendState());
        backendStateChangedFlag := true;
      }
      var stateChanged := false;
      if commitArmState == SendCommit {
        commitArmState := CommitSent;
        backendState := Some(backendState.value["status" := JStr("fixed")]);
        useRandomBlinkenlichten := BlinkenlichtenDefault;
        stateChanged := true;
        backendStateChangedFlag := true;
      }
      if stateChanged {
        return backendState;
      }
      return None;
    }

    /** `_reset_console_values()`, without the full hardware update it ends with. */
    method ResetConsoleValues()
      modifies this`toptext, this`gaugeValues, this`gaugeDirections, this`topledValues, this`colorledValues
      ensures Values() == ResetAliases(old(Values()), aliases)
      ensures toptext == JStr("") && colorledValues == ResetColorLeds()
    {
      toptext := JStr("");
      for i := 0 to |aliases|
        invariant Values() == ResetAliases(old(Values()), aliases[..i])
        invariant toptext == JStr("")
      {
        var alias := aliases[i];
        assert aliases[..i + 1][..i] == aliases[..i];
        if EndsWith(alias, "_gauge") {
          gaugeValues := gaugeValues[alias := 0.0];
          var upAlias := UpAlias(alias);
          var dnAlias := DownAlias(alias);
          gaugeDirections := gaugeDirections[upAlias := false];
          gaugeDirections := gaugeDirections[dnAlias := false];
        }
        if EndsWith(alias, "_led") {
          topledValues := topledValues[alias := 0.0];
        }
      }
      assert aliases[..|aliases|] == aliases;
      colorledValues := seq(32, _ => 0.0);
    }
  }
}
