/**
 * The reactor console's local logic that both revisions of the controller
 * share, reactorconsole/reactorconsole.py and reactorconsole/reactorlocal.py:
 * the commit/arm state machine driven by the panel switches, the arm/commit
 * handler of the update loop, the backend top text, the reset of the console
 * values and the padding of the 5-character display.
 *
 * Each piece is a pure function of the fields it reads; the two controller
 * classes change their fields in place and are proved to follow these functions.
 */
module ConsoleLogic {
  import opened Wrappers
  import opened Json

  // ------------------------------------------------------------------------
  // Strings
  // ------------------------------------------------------------------------

  /** Python's `sub in s`: `sub` starts at some position of `s`. */
  predicate Contains(s: string, sub: string)
    ensures Contains(s, sub) ==> |sub| <= |s|
    ensures sub == [] ==> Contains(s, sub)
    decreases |s|
  {
    |sub| <= |s| && (s[..|sub|] == sub || Contains(s[1..], sub))
  }

  /** `sub` occurs in `s` starting at index `i`. */
  predicate OccursAt(s: string, sub: string, i: int) {
    0 <= i && i + |sub| <= |s| && s[i..i + |sub|] == sub
  }

  /** `Contains` agrees with the plain definition: some index where `sub` occurs. */
  lemma {:induction false} ContainsIff(s: string, sub: string)
    ensures Contains(s, sub) <==> exists i :: OccursAt(s, sub, i)
    decreases |s|
  {
    if |sub| <= |s| {
      if s[..|sub|] == sub {
        assert OccursAt(s, sub, 0);
      } else {
        ContainsIff(s[1..], sub);
        if Contains(s[1..], sub) {
          var i :| OccursAt(s[1..], sub, i);
          assert s[1..][i..i + |sub|] == s[i + 1..i + 1 + |sub|];
          assert OccursAt(s, sub, i + 1);
        }
        if exists i :: OccursAt(s, sub, i) {
          var i :| OccursAt(s, sub, i);
          assert i != 0;
          assert s[1..][i - 1..i - 1 + |sub|] == s[i..i + |sub|];
          assert OccursAt(s[1..], sub, i - 1);
        }
      }
    }
  }

  /** Python's `s.endswith(suffix)`. */
  predicate EndsWith(s: string, suffix: string)
    ensures EndsWith(s, suffix) ==> |suffix| <= |s| && s == s[..|s| - |suffix|] + suffix
  {
    |suffix| <= |s| && s[|s| - |suffix|..] == suffix
  }

  /** Whatever comes in front, a text ends with its own last part. */
  lemma EndsWithAppend(stem: string, suffix: string)
    ensures EndsWith(stem + suffix, suffix)
  {
    assert (stem + suffix)[|stem|..] == suffix;
  }

  /**
   * Python's `s.replace(pat, rep)` for a non-empty pattern: occurrences are
   * replaced left to right and never overlap. A string without the pattern is
   * returned as it is.
   */
  function ReplaceAll(s: string, pat: string, rep: string): (r: string)
    requires |pat| > 0
    ensures !Contains(s, pat) ==> r == s
    decreases |s|
  {
    if |s| < |pat| then s
    else if s[..|pat|] == pat then rep + ReplaceAll(s[|pat|..], pat, rep)
    else [s[0]] + ReplaceAll(s[1..], pat, rep)
  }

  /** The up switch of a gauge: `alias.replace('_gauge', '_up')`. */
  function UpAlias(alias: string): (r: string)
    ensures !Contains(alias, "_gauge") ==> r == alias
  {
    ReplaceAll(alias, "_gauge", "_up")
  }

  /** The down switch of a gauge: `alias.replace('_gauge', '_down')`. */
  function DownAlias(alias: string): (r: string)
    ensures !Contains(alias, "_gauge") ==> r == alias
  {
    ReplaceAll(alias, "_gauge", "_down")
  }

  /**
   * When nothing before the end overlaps the pattern, replacing in `s + pat`
   * keeps `s` and turns the trailing pattern into `rep`.
   */
  lemma {:induction false} ReplaceTrailing(s: string, pat: string, rep: string)
    requires |pat| > 0
    requires !Contains(s + pat[..|pat| - 1], pat)
    ensures ReplaceAll(s + pat, pat, rep) == s + rep
    decreases |s|
  {
    if s == [] {
      assert s + pat == pat;
      assert ReplaceAll(pat[|pat|..], pat, rep) == [];
    } else {
      var x := s + pat[..|pat| - 1];
      assert |pat| <= |x| && x[..|pat|] != pat && !Contains(x[1..], pat);
      assert (s + pat)[..|pat|] == x[..|pat|];
      assert x[1..] == s[1..] + pat[..|pat| - 1];
      ReplaceTrailing(s[1..], pat, rep);
      calc {
        ReplaceAll(s + pat, pat, rep);
        [s[0]] + ReplaceAll((s + pat)[1..], pat, rep);
        { assert (s + pat)[1..] == s[1..] + pat; }
        [s[0]] + (s[1..] + rep);
        s + rep;
      }
    }
  }

  /**
   * A gauge alias `<stem>_gauge` in which `_gauge` occurs only at the end has
   * the switches `<stem>_up` and `<stem>_down`.
   */
  lemma GaugeSwitchAliases(stem: string)
    requires !Contains(stem + "_gaug", "_gauge")
    ensures UpAlias(stem + "_gauge") == stem + "_up"
    ensures DownAlias(stem + "_gauge") == stem + "_down"
  {
    assert "_gauge"[..5] == "_gaug";
    ReplaceTrailing(stem, "_gauge", "_up");
    ReplaceTrailing(stem, "_gauge", "_down");
  }

  /** The spaces in front of a right-aligned text. */
  function Spaces(n: nat): (r: string)
    ensures |r| == n && forall i :: 0 <= i < n ==> r[i] == ' '
  {
    if n == 0 then "" else Spaces(n - 1) + " "
  }

  /**
   * Python's right-aligned format of width 5: a
   * shorter text gets spaces in front, a longer one is sent whole.
   */
  function PadLeft5(text: string): (r: string)
    ensures |r| == if |text| >= 5 then |text| else 5
    ensures EndsWith(r, text)
    ensures forall i :: 0 <= i < |r| - |text| ==> r[i] == ' '
  {
    if |text| >= 5 then text else Spaces(5 - |text|) + text
  }

  /** The text the display shows with a text of at most five characters. */
  lemma PadLeft5Short(text: string)
    requires |text| <= 5
    ensures |PadLeft5(text)| == 5 && PadLeft5(text)[5 - |text|..] == text
  {
  }

  /**
   * The top texts `'{:>5}'.format` accepts: strings, numbers and booleans.
   * For `None`, a list or a dictionary it raises a TypeError.
   */
  predicate Formattable(t: JValue) {
    t.JStr? || t.JNum? || t.JBool?
  }

  // ------------------------------------------------------------------------
  // The commit state
  // ------------------------------------------------------------------------

  /** `CommitState`, an `IntEnum`: the states are ordered as listed. */
  datatype CommitState = Uninitialized | Ready | Armed | Committed | SendCommit | CommitSent {
    function Rank(): (r: nat)
      ensures r <= 5
    {
      match this
      case Uninitialized => 0
      case Ready => 1
      case Armed => 2
      case Committed => 3
      case SendCommit => 4
      case CommitSent => 5
    }
  }

  /** The ranks follow the order in which the states are declared, and no two states share one. */
  lemma RankOrder(a: CommitState, b: CommitState)
    ensures Uninitialized.Rank() < Ready.Rank() < Armed.Rank() < Committed.Rank() < SendCommit.Rank() < CommitSent.Rank()
    ensures Uninitialized.Rank() == 0 && CommitSent.Rank() == 5
    ensures a.Rank() == b.Rank() ==> a == b
  {
  }

  /** The text the display shows while the commit is armed. */
  const ArmedTopText: string := "-----"

  /** What the update loop asks the hardware to do. */
  datatype Command =
    | UpdateTopText(text: JValue)   // `_update_toptext()` with the top text of that moment
    | UpdateTopLed(alias: string)   // `_update_topled_value(alias)`
    | ResetTopLeds                  // the proxy reset of the rod LEDs

  // ------------------------------------------------------------------------
  // ardubus_callback
  // ------------------------------------------------------------------------

  /** A switch event from the panel: its alias and its line state. */
  datatype SwitchEvent = SwitchEvent(alias: string, state: bool)

  /** The fields `ardubus_callback` reads and writes. */
  datatype SwitchView = SwitchView(directions: map<string, bool>, commit: CommitState)

  /**
   * `ardubus_callback(event)`. Unused aliases are ignored; a gauge switch
   * stores its inverted (active-low) state; the arm key sets `ready` when
   * released and `armed` when turned from below `armed`; the push button moves
   * `armed` to `committed`. Any other alias changes nothing.
   */
  function OnSwitchEvent(v: SwitchView, e: SwitchEvent): (r: SwitchView)
    ensures Contains(e.alias, "unused") ==> r == v
    ensures r.directions.Keys == v.directions.Keys
    ensures forall a :: a in v.directions && a != e.alias ==> r.directions[a] == v.directions[a]
    ensures !Contains(e.alias, "unused") && e.alias in v.directions ==>
              r.directions[e.alias] == !e.state && r.commit == v.commit
    ensures r.commit != v.commit ==>
              !Contains(e.alias, "unused") && e.alias !in v.directions && r.directions == v.directions &&
              (e.alias == "commit_arm_key" || e.alias == "commit_push")
    ensures !Contains(e.alias, "unused") && e.alias !in v.directions && e.alias == "commit_arm_key" ==>
              r.commit == (if e.state then Ready else if v.commit.Rank() < Armed.Rank() then Armed else v.commit)
    ensures !Contains(e.alias, "unused") && e.alias !in v.directions && e.alias == "commit_push" ==>
              r.commit == (if e.state && v.commit == Armed then Committed else v.commit)
  {
    if Contains(e.alias, "unused") then v
    else if e.alias in v.directions then v.(directions := v.directions[e.alias := !e.state])
    else if e.alias == "commit_arm_key" then
      var c := if e.state then Ready else v.commit;
      v.(commit := if !e.state && c.Rank() < Armed.Rank() then Armed else c)
    else if e.alias == "commit_push" then
      v.(commit := if e.state && v.commit == Armed then Committed else v.commit)
    else v
  }

  /** A run of switch events, in order. */
  function OnSwitchEvents(v: SwitchView, events: seq<SwitchEvent>): (r: SwitchView)
    ensures (forall i :: 0 <= i < |events| ==> Contains(events[i].alias, "unused")) ==> r == v
    decreases |events|
  {
    if events == [] then v else OnSwitchEvents(OnSwitchEvent(v, events[0]), events[1..])
  }

  /**
   * The switches alone never send a commit: only the arm/commit handler moves
   * `committed` on to `send_commit`, and nothing but the fixed-send step
   * reaches `commit_sent`.
   */
  lemma {:induction false} SwitchesNeverSend(v: SwitchView, events: seq<SwitchEvent>)
    requires v.commit.Rank() <= Committed.Rank()
    ensures OnSwitchEvents(v, events).commit.Rank() <= Committed.Rank()
    decreases |events|
  {
    if events != [] {
      SwitchesNeverSend(OnSwitchEvent(v, events[0]), events[1..]);
    }
  }

  /** A run of switch events never adds or removes a gauge direction. */
  lemma {:induction false} SwitchesKeepDirections(v: SwitchView, events: seq<SwitchEvent>)
    ensures OnSwitchEvents(v, events).directions.Keys == v.directions.Keys
    decreases |events|
  {
    if events != [] {
      SwitchesKeepDirections(OnSwitchEvent(v, events[0]), events[1..]);
    }
  }

  /** A text that has the first character of `sub` at no position where `sub` would fit does not contain it. */
  lemma {:induction false} NotContainsNoStart(s: string, sub: string)
    requires |sub| > 0
    requires forall i :: 0 <= i <= |s| - |sub| ==> s[i] != sub[0]
    ensures !Contains(s, sub)
    decreases |s|
  {
    if |sub| <= |s| {
      assert s[..|sub|][0] != sub[0];
      NotContainsNoStart(s[1..], sub);
    }
  }

  lemma NotUnused(alias: string)
    requires alias == "commit_arm_key" || alias == "commit_push"
    ensures !Contains(alias, "unused")
  {
    NotContainsNoStart(alias, "unused");
  }

  /**
   * From any state below `armed`, turning the arm key and then pushing the
   * commit button commits (when neither control is wired as a gauge switch).
   */
  lemma ArmThenPushCommits(v: SwitchView)
    requires v.commit.Rank() < Armed.Rank()
    requires "commit_arm_key" !in v.directions && "commit_push" !in v.directions
    ensures OnSwitchEvent(OnSwitchEvent(v, SwitchEvent("commit_arm_key", false)), SwitchEvent("commit_push", true)).commit == Committed
  {
    var turn, push := SwitchEvent("commit_arm_key", false), SwitchEvent("commit_push", true);
    NotUnused(turn.alias);
    NotUnused(push.alias);
    var armed := OnSwitchEvent(v, turn);
    assert armed.commit == Armed && armed.directions == v.directions;
    var committed := OnSwitchEvent(armed, push);
    assert committed.commit == Committed;
  }

  /** Releasing the arm key always disarms, whatever the state was. */
  lemma ReleaseDisarms(v: SwitchView)
    requires "commit_arm_key" !in v.directions
    ensures OnSwitchEvent(v, SwitchEvent("commit_arm_key", true)).commit == Ready
  {
    NotUnused("commit_arm_key");
  }

  // ------------------------------------------------------------------------
  // _local_update_loop_arm_commit and _local_update_loop_backend_toptext
  // ------------------------------------------------------------------------

  /** The fields the arm/commit and top-text handlers read and write. */
  datatype ArmView = ArmView(commit: CommitState, toptext: JValue, previous: JValue)

  /**
   * `_local_update_loop_arm_commit`: `ready` and `commit_sent` restore the
   * remembered text, `armed` remembers the text and shows the armed text,
   * `committed` moves on to `send_commit` exactly when the gauges match. A
   * text that changed is sent to the display unless a full update is pending.
   */
  function ArmCommitStep(v: ArmView, gaugesMatch: bool, fullUpdatePending: bool): (r: (ArmView, seq<Command>))
    ensures v.commit == Ready || v.commit == CommitSent ==>
              r.0 == v.(toptext := v.previous)
    ensures v.commit == Armed ==>
              r.0 == ArmView(Armed, JStr(ArmedTopText), v.toptext)
    ensures v.commit == Committed ==>
              r.0.toptext == v.toptext && r.0.previous == v.previous &&
              (r.0.commit == SendCommit <==> gaugesMatch) && (r.0.commit == Committed <==> !gaugesMatch)
    ensures v.commit == Uninitialized || v.commit == SendCommit ==> r.0 == v
    ensures r.1 == if !fullUpdatePending && (v.commit == Ready || v.commit == Armed || v.commit == CommitSent)
                   then [UpdateTopText(r.0.toptext)] else []
  {
    var c := v.commit;
    var v1, k1 := if c == Ready then v.(toptext := v.previous) else v, c == Ready;
    var v2, k2 := if v1.commit == Armed then ArmView(Armed, JStr(ArmedTopText), v1.toptext) else v1, v1.commit == Armed;
    var v3 := if v2.commit == Committed && gaugesMatch then v2.(commit := SendCommit) else v2;
    var v4, k4 := if v3.commit == CommitSent then v3.(toptext := v3.previous) else v3, v3.commit == CommitSent;
    (v4, if !fullUpdatePending && (k1 || k2 || k4) then [UpdateTopText(v4.toptext)] else [])
  }

  /**
   * `_local_update_loop_backend_toptext`: a top text from the backend is
   * always remembered, and shown unless the armed text is on the display.
   */
  function BackendTopTextStep(v: ArmView, backend: Dict, fullUpdatePending: bool): (r: (ArmView, seq<Command>))
    ensures r.0.commit == v.commit
    ensures Lookup(backend, "toptext").None? ==> r == (v, [])
    ensures Lookup(backend, "toptext").Some? ==> r.0.previous == backend["toptext"]
    ensures Lookup(backend, "toptext").Some? && v.toptext == JStr(ArmedTopText) ==> r == (v.(previous := backend["toptext"]), [])
    ensures Lookup(backend, "toptext").Some? && v.toptext != JStr(ArmedTopText) ==>
              r.0.toptext == backend["toptext"] &&
              r.1 == if fullUpdatePending then [] else [UpdateTopText(backend["toptext"])]
  {
    match Lookup(backend, "toptext")
    case None => (v, [])
    case Some(t) =>
      if v.toptext != JStr(ArmedTopText) then
        (v.(previous := t, toptext := t), if fullUpdatePending then [] else [UpdateTopText(t)])
      else (v.(previous := t), [])
  }

  /** Arming and then releasing the key puts the text back that was shown before arming. */
  lemma ArmThenReadyRestores(v: ArmView, gaugesMatch: bool, pending: bool)
    requires v.commit == Armed
    ensures ArmCommitStep(ArmCommitStep(v, gaugesMatch, pending).0.(commit := Ready), gaugesMatch, pending).0.toptext == v.toptext
  {
  }

  /**
   * A top text the backend sends while the commit is armed is not shown at
   * once, but it is the text that comes back when the commit is disarmed.
   */
  lemma ArmedBackendTextShownOnDisarm(v: ArmView, backend: Dict, gaugesMatch: bool, pending: bool)
    requires v.commit == Armed
    requires Lookup(backend, "toptext").Some?
    ensures var armed := ArmCommitStep(v, gaugesMatch, pending).0;
            var updated := BackendTopTextStep(armed, backend, pending).0;
            updated.toptext == JStr(ArmedTopText) &&
            ArmCommitStep(updated.(commit := Ready), gaugesMatch, pending).0.toptext == backend["toptext"]
  {
  }

  // ------------------------------------------------------------------------
  // _reset_console_values
  // ------------------------------------------------------------------------

  /** The console values `_reset_console_values` fills in. */
  datatype ConsoleValues = ConsoleValues(gauges: map<string, real>, directions: map<string, bool>, topleds: map<string, real>)

  /** The body of the loop over the aliases, for one alias. */
  function ResetAlias(v: ConsoleValues, alias: string): (r: ConsoleValues)
    ensures !EndsWith(alias, "_gauge") && !EndsWith(alias, "_led") ==> r == v
    ensures EndsWith(alias, "_gauge") ==>
              r.gauges == v.gauges[alias := 0.0] && r.directions == v.directions[UpAlias(alias) := false][DownAlias(alias) := false]
    ensures !EndsWith(alias, "_gauge") ==> r.gauges == v.gauges && r.directions == v.directions
    ensures r.topleds == if EndsWith(alias, "_led") then v.topleds[alias := 0.0] else v.topleds
  {
    var g := if EndsWith(alias, "_gauge") then
               v.(gauges := v.gauges[alias := 0.0],
                  directions := v.directions[UpAlias(alias) := false][DownAlias(alias) := false])
             else v;
    if EndsWith(alias, "_led") then g.(topleds := g.topleds[alias := 0.0]) else g
  }

  /** The loop over the aliases, in order. */
  function ResetAliases(v: ConsoleValues, aliases: seq<string>): (r: ConsoleValues)
    ensures v.gauges.Keys <= r.gauges.Keys && v.directions.Keys <= r.directions.Keys && v.topleds.Keys <= r.topleds.Keys
    ensures (forall i :: 0 <= i < |aliases| ==> !EndsWith(aliases[i], "_gauge") && !EndsWith(aliases[i], "_led")) ==> r == v
    decreases |aliases|
  {
    if aliases == [] then v else ResetAlias(ResetAliases(v, aliases[..|aliases| - 1]), aliases[|aliases| - 1])
  }

  /** The gauge aliases among `aliases`. */
  predicate IsGaugeIn(a: string, aliases: seq<string>) {
    a in aliases && EndsWith(a, "_gauge")
  }

  /** The up/down switches of the gauge aliases among `aliases`. */
  ghost predicate IsDirectionIn(d: string, aliases: seq<string>) {
    exists a :: IsGaugeIn(a, aliases) && (d == UpAlias(a) || d == DownAlias(a))
  }

  /** The LED aliases among `aliases`. */
  predicate IsLedIn(a: string, aliases: seq<string>) {
    a in aliases && EndsWith(a, "_led")
  }

  /** What the reset promises of one map of console values. */
  ghost predicate ResetGauges(before: ConsoleValues, after: ConsoleValues, aliases: seq<string>) {
    && (forall a :: a in after.gauges <==> a in before.gauges || IsGaugeIn(a, aliases))
    && (forall a :: IsGaugeIn(a, aliases) ==> after.gauges[a] == 0.0)
    && (forall a :: a in before.gauges && !IsGaugeIn(a, aliases) ==> after.gauges[a] == before.gauges[a])
  }

  ghost predicate ResetDirections(before: ConsoleValues, after: ConsoleValues, aliases: seq<string>) {
    && (forall d :: d in after.directions <==> d in before.directions || IsDirectionIn(d, aliases))
    && (forall d :: IsDirectionIn(d, aliases) ==> !after.directions[d])
    && (forall d :: d in before.directions && !IsDirectionIn(d, aliases) ==> after.directions[d] == before.directions[d])
  }

  ghost predicate ResetLeds(before: ConsoleValues, after: ConsoleValues, aliases: seq<string>) {
    && (forall a :: a in after.topleds <==> a in before.topleds || IsLedIn(a, aliases))
    && (forall a :: IsLedIn(a, aliases) ==> after.topleds[a] == 0.0)
    && (forall a :: a in before.topleds && !IsLedIn(a, aliases) ==> after.topleds[a] == before.topleds[a])
  }

  /** One more alias keeps the reset promise for the gauge values. */
  lemma ResetGaugesStep(v: ConsoleValues, w: ConsoleValues, init: seq<string>, last: string)
    requires ResetGauges(v, w, init)
    ensures ResetGauges(v, ResetAlias(w, last), init + [last])
  {
    var u := ResetAlias(w, last);
    assert forall a :: IsGaugeIn(a, init + [last]) <==> IsGaugeIn(a, init) || (a == last && EndsWith(last, "_gauge"));
    assert u.gauges == if EndsWith(last, "_gauge") then w.gauges[last := 0.0] else w.gauges;
  }

  /** One more alias keeps the reset promise for the LED values. */
  lemma ResetLedsStep(v: ConsoleValues, w: ConsoleValues, init: seq<string>, last: string)
    requires ResetLeds(v, w, init)
    ensures ResetLeds(v, ResetAlias(w, last), init + [last])
  {
    var u := ResetAlias(w, last);
    assert forall a :: IsLedIn(a, init + [last]) <==> IsLedIn(a, init) || (a == last && EndsWith(last, "_led"));
    assert u.topleds == if EndsWith(last, "_led") then w.topleds[last := 0.0] else w.topleds;
  }

  /** The switches of the gauges among `init + [last]`. */
  lemma DirectionInStep(d: string, init: seq<string>, last: string)
    ensures IsDirectionIn(d, init + [last]) <==>
              IsDirectionIn(d, init) || (EndsWith(last, "_gauge") && (d == UpAlias(last) || d == DownAlias(last)))
  {
    var all := init + [last];
    if IsDirectionIn(d, all) {
      var a :| IsGaugeIn(a, all) && (d == UpAlias(a) || d == DownAlias(a));
      if a != last {
        assert IsGaugeIn(a, init);
      }
    }
    if IsDirectionIn(d, init) {
      var a :| IsGaugeIn(a, init) && (d == UpAlias(a) || d == DownAlias(a));
      assert IsGaugeIn(a, all);
    }
    if EndsWith(last, "_gauge") && (d == UpAlias(last) || d == DownAlias(last)) {
      assert IsGaugeIn(last, all);
    }
  }

  /** One more alias keeps the reset promise for the gauge switches. */
  lemma ResetDirectionsStep(v: ConsoleValues, w: ConsoleValues, init: seq<string>, last: string)
    requires ResetDirections(v, w, init)
    ensures ResetDirections(v, ResetAlias(w, last), init + [last])
  {
    var u := ResetAlias(w, last);
    forall d
      ensures IsDirectionIn(d, init + [last]) <==>
                IsDirectionIn(d, init) || (EndsWith(last, "_gauge") && (d == UpAlias(last) || d == DownAlias(last)))
    {
      DirectionInStep(d, init, last);
    }
    assert u.directions ==
             if EndsWith(last, "_gauge") then w.directions[UpAlias(last) := false][DownAlias(last) := false]
             else w.directions;
  }

  /**
   * After the loop over the aliases every gauge alias reads 0 and both its
   * up and down switches read false, every LED alias reads 0, and every other
   * entry keeps its value. The order of the aliases does not matter.
   */
  lemma {:induction false} ResetAliasesResets(v: ConsoleValues, aliases: seq<string>)
    ensures ResetGauges(v, ResetAliases(v, aliases), aliases)
    ensures ResetDirections(v, ResetAliases(v, aliases), aliases)
    ensures ResetLeds(v, ResetAliases(v, aliases), aliases)
    decreases |aliases|
  {
    if aliases == [] {
      assert forall a :: !IsGaugeIn(a, aliases) && !IsLedIn(a, aliases);
      assert forall d :: !IsDirectionIn(d, aliases);
    } else {
      var init := aliases[..|aliases| - 1];
      var last := aliases[|aliases| - 1];
      assert aliases == init + [last];
      ResetAliasesResets(v, init);
      var w := ResetAliases(v, init);
      ResetGaugesStep(v, w, init, last);
      ResetDirectionsStep(v, w, init, last);
      ResetLedsStep(v, w, init, last);
    }
  }

  /** A second reset changes nothing. */
  lemma ResetAliasesIdempotent(v: ConsoleValues, aliases: seq<string>)
    ensures ResetAliases(ResetAliases(v, aliases), aliases) == ResetAliases(v, aliases)
  {
    var once := ResetAliases(v, aliases);
    var twice := ResetAliases(once, aliases);
    ResetAliasesResets(v, aliases);
    ResetAliasesResets(once, aliases);
    ResetTwiceSameGauges(v, once, twice, aliases);
    ResetTwiceSameDirections(v, once, twice, aliases);
    ResetTwiceSameLeds(v, once, twice, aliases);
  }

  lemma ResetTwiceSameGauges(v: ConsoleValues, once: ConsoleValues, twice: ConsoleValues, aliases: seq<string>)
    requires ResetGauges(v, once, aliases) && ResetGauges(once, twice, aliases)
    ensures twice.gauges == once.gauges
  {
    assert twice.gauges.Keys == once.gauges.Keys;
  }

  lemma ResetTwiceSameDirections(v: ConsoleValues, once: ConsoleValues, twice: ConsoleValues, aliases: seq<string>)
    requires ResetDirections(v, once, aliases) && ResetDirections(once, twice, aliases)
    ensures twice.directions == once.directions
  {
    assert twice.directions.Keys == once.directions.Keys;
  }

  lemma ResetTwiceSameLeds(v: ConsoleValues, once: ConsoleValues, twice: ConsoleValues, aliases: seq<string>)
    requires ResetLeds(v, once, aliases) && ResetLeds(once, twice, aliases)
    ensures twice.topleds == once.topleds
  {
    assert twice.topleds.Keys == once.topleds.Keys;
  }

  /** The colour LEDs after a reset: 32 values, all 0. */
  function ResetColorLeds(): (r: seq<real>)
    ensures |r| == 32 && forall i :: 0 <= i < 32 ==> r[i] == 0.0
  {
    seq(32, _ => 0.0)
  }
}
