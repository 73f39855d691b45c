/**
 * The synchronisation engine of odysseus/taskbox.py that every prop runs on.
 *
 * A `TaskBoxRunner` keeps a working copy of one task box's state, polls the
 * backend for external changes, feeds the state to a prop-specific callback
 * and writes the callback's changes back. The backend modelled here is the
 * mock one: a single stored value plus one injection path, a state file whose
 * presence stands for an edit made by somebody else.
 *
 * Each imperative operation is a method of a class, and each method is tied
 * to a pure function of the old state (`MockRead`, `MockWrite`, `AfterCallback`,
 * `AfterPoll`, `AfterWrite`, `AfterIteration`); the properties are stated about those.
 */
module TaskBox {
  import opened Wrappers
  import opened Json

  // ------------------------------------------------------------------------
  // The mock backend, as a value
  // ------------------------------------------------------------------------

  /** The state the mock stores, and the content of its state file when the file exists. */
  datatype MockStore<S> = MockStore(stored: S, pending: Option<S>)

  /** A write either lands or meets a concurrent modification. */
  datatype WriteOutcome = Written | ConcurrentModification

  /**
   * The external edit that `_read_and_delete` hands back and that the mock then
   * applies: the file's content, when it is present and truthy. A falsy content
   * (an empty object, say) is deleted like any other but changes nothing.
   */
  function Injected<S>(m: MockStore<S>, truthy: S -> bool): (r: Option<S>)
    ensures r.Some? ==> m.pending == r && truthy(r.value)
    ensures r.None? ==> m.pending.None? || !truthy(m.pending.value)
  {
    if m.pending.Some? && truthy(m.pending.value) then m.pending else None
  }

  /** `MockTaskBox.read`: consume the state file, adopt its content, return the stored state. */
  function MockRead<S>(m: MockStore<S>, truthy: S -> bool): (r: (MockStore<S>, S))
    ensures r.0.pending == None
    ensures r.1 == r.0.stored
    ensures Injected(m, truthy).Some? ==> r.1 == m.pending.value
    ensures Injected(m, truthy).None? ==> r.1 == m.stored
  {
    var s := if Injected(m, truthy).Some? then m.pending.value else m.stored;
    (MockStore(s, None), s)
  }

  /**
   * `MockTaskBox.write`: with an external edit waiting, the edit is stored and
   * the write is refused; otherwise the candidate is stored.
   */
  function MockWrite<S>(m: MockStore<S>, candidate: S, truthy: S -> bool): (r: (MockStore<S>, WriteOutcome))
    ensures r.0.pending == None
    ensures r.1 == ConcurrentModification <==> Injected(m, truthy).Some?
    ensures r.1 == Written ==> r.0.stored == candidate
    ensures r.1 == ConcurrentModification ==> r.0.stored == m.pending.value
  {
    if Injected(m, truthy).Some? then (MockStore(m.pending.value, None), ConcurrentModification)
    else (MockStore(candidate, None), Written)
  }

  /** With no external edit waiting, what is written is exactly what is read back. */
  lemma MockWriteThenRead<S>(m: MockStore<S>, x: S, truthy: S -> bool)
    requires m.pending == None
    ensures MockWrite(m, x, truthy).1 == Written
    ensures MockRead(MockWrite(m, x, truthy).0, truthy).1 == x
  {
  }

  /** The state file of the mock with the given id. */
  function StateFileName(id: string): string {
    "backend-mock-" + id + ".json"
  }

  /** Mocks with different ids watch different state files, so one edit reaches one mock only. */
  lemma StateFileNamesDistinct(id1: string, id2: string)
    requires id1 != id2
    ensures StateFileName(id1) != StateFileName(id2)
  {
    var prefix := "backend-mock-";
    var n1, n2 := StateFileName(id1), StateFileName(id2);
    assert n1[|prefix|..|prefix| + |id1|] == id1;
    assert n2[|prefix|..|prefix| + |id2|] == id2;
    if |id1| != |id2| {
      assert |n1| != |n2|;
    }
  }

  // ------------------------------------------------------------------------
  // The runner, as a value
  // ------------------------------------------------------------------------

  /**
   * The callback contract: it receives (a copy of) the working state, `None`
   * before anything was read, and whether the backend just changed; `None` as
   * a result means "no change".
   */
  type Callback<!S> = (Option<S>, bool) -> Option<S>

  /**
   * The runner's three fields `_state`, `_previous_backend_state` and
   * `_state_changed`, together with the backend they are kept in step with.
   */
  datatype RunnerState<S> = RunnerState(state: Option<S>, baseline: Option<S>, changed: bool, box: MockStore<S>)

  /** `_state_changed` is only ever set by a callback that produced a state, so there is a state to write. */
  predicate Consistent<S>(r: RunnerState<S>) {
    r.changed ==> r.state.Some?
  }

  /**
   * `_call_callback`: a result that is `None` or equal to the working state
   * changes nothing; any other result becomes the working state and marks it
   * as changed.
   */
  function AfterCallback<S(==)>(r: RunnerState<S>, cb: Callback<S>, backendChange: bool): (r': RunnerState<S>)
    ensures r'.baseline == r.baseline && r'.box == r.box
    ensures cb(r.state, backendChange) == None || cb(r.state, backendChange) == r.state ==> r' == r
    ensures cb(r.state, backendChange) != None && cb(r.state, backendChange) != r.state ==>
              r'.state == cb(r.state, backendChange) && r'.changed
    ensures Consistent(r) ==> Consistent(r')
  {
    var next := cb(r.state, backendChange);
    if next != None && next != r.state then r.(state := next, changed := true) else r
  }

  /**
   * `_poll_backend`: a read value that differs from the last one seen is
   * adopted as both the working state and the baseline, the change flag is
   * cleared and the callback runs with `backend_change` set; a read value
   * equal to the baseline changes none of the three fields.
   */
  function AfterPoll<S(==)>(r: RunnerState<S>, cb: Callback<S>, truthy: S -> bool): (r': RunnerState<S>)
    ensures r'.box == MockRead(r.box, truthy).0
    ensures r'.baseline == Some(MockRead(r.box, truthy).1)
    ensures Some(MockRead(r.box, truthy).1) == r.baseline ==>
              r'.state == r.state && r'.changed == r.changed
    ensures var v := MockRead(r.box, truthy).1;
            var next := cb(Some(v), true);
            Some(v) != r.baseline ==>
              r'.state == (if next == None then Some(v) else next) &&
              r'.changed == (next != None && next != Some(v))
    ensures Consistent(r) ==> Consistent(r')
  {
    var read := MockRead(r.box, truthy);
    if Some(read.1) != r.baseline then
      AfterCallback(RunnerState(Some(read.1), Some(read.1), false, read.0), cb, true)
    else
      r.(box := read.0)
  }

  /**
   * `_write_backend`: a write that lands makes the written state the baseline
   * and clears the change flag; a write refused by a concurrent modification
   * forgets the baseline and polls at once, so that the edit that caused the
   * refusal is adopted and handed to the callback as a backend change.
   */
  function AfterWrite<S(==)>(r: RunnerState<S>, cb: Callback<S>, truthy: S -> bool): (r': RunnerState<S>)
    requires r.state.Some?
    ensures Injected(r.box, truthy).None? ==>
              r'.box == MockStore(r.state.value, None) && r'.baseline == r.state &&
              r'.state == r.state && !r'.changed
    ensures var edit := Injected(r.box, truthy);
            var next := cb(edit, true);
            edit.Some? ==>
              r'.box == MockStore(edit.value, None) && r'.baseline == edit &&
              r'.state == (if next == None then edit else next) &&
              r'.changed == (next != None && next != edit)
    ensures Consistent(r')
  {
    var written := MockWrite(r.box, r.state.value, truthy);
    match written.1
    case Written => r.(box := written.0, baseline := r.state, changed := false)
    case ConcurrentModification => AfterPoll(r.(box := written.0, baseline := None), cb, truthy)
  }

  /**
   * After a refused write the candidate is gone: the working state is the
   * injected edit, or whatever the callback made of it.
   */
  lemma ConflictDropsCandidate<S>(r: RunnerState<S>, cb: Callback<S>, truthy: S -> bool)
    requires r.state.Some?
    requires Injected(r.box, truthy).Some?
    ensures AfterWrite(r, cb, truthy).state == Injected(r.box, truthy) ||
            AfterWrite(r, cb, truthy).state == cb(Injected(r.box, truthy), true)
    ensures AfterWrite(r, cb, truthy).box.stored == r.box.pending.value
  {
  }

  /** The runner is in step with the backend, as a write that lands leaves it. */
  predicate InSync<S(==)>(r: RunnerState<S>) {
    r.state.Some? && r.baseline == r.state && !r.changed && r.box.stored == r.state.value
  }

  /**
   * Polling twice in a row is polling once: the first poll consumes any
   * external edit and records what it read as the baseline, so the second
   * reads the same value and changes nothing.
   */
  lemma PollIdempotent<S>(r: RunnerState<S>, cb: Callback<S>, truthy: S -> bool)
    ensures AfterPoll(AfterPoll(r, cb, truthy), cb, truthy) == AfterPoll(r, cb, truthy)
  {
    var once := AfterPoll(r, cb, truthy);
    assert once.box.pending == None;
    assert MockRead(once.box, truthy) == (once.box, once.box.stored);
  }

  // ------------------------------------------------------------------------
  // Cadences and one iteration of the main loop
  // ------------------------------------------------------------------------

  /**
   * `_inc_time`: advance a deadline by its increment, but when that is still
   * more than one increment in the past, restart from the present instead of
   * catching up step by step.
   */
  function IncTime(t: real, increment: real, now: real): (r: real)
    ensures r == t + increment || r == now
    ensures t + increment >= now - increment ==> r == t + increment
    ensures t + increment < now - increment ==> r == now
    ensures increment >= 0.0 ==> r >= now - increment && r >= t + increment
  {
    if t + increment < now - increment then now else t + increment
  }

  /** The three intervals `run_interval`, `poll_interval` and `write_interval`. */
  datatype Cadence = Cadence(run: real, poll: real, write: real)

  /** The three deadlines `next_run_time`, `next_poll_time` and `next_write_time`. */
  datatype Schedule = Schedule(nextRun: real, nextPoll: real, nextWrite: real)

  /** The poll and run steps of an iteration: everything it does before deciding whether to write. */
  function AfterPollAndRun<S(==)>(r: RunnerState<S>, s: Schedule, c: Cadence, cb: Callback<S>, truthy: S -> bool, now: real)
    : (out: (RunnerState<S>, Schedule))
    ensures out.1.nextWrite == s.nextWrite
    ensures now < s.nextPoll ==> out.1.nextPoll == s.nextPoll && out.0.box == r.box && out.0.baseline == r.baseline
    ensures now >= s.nextPoll ==> out.1.nextPoll == IncTime(s.nextPoll, c.poll, now) && out.0.baseline.Some?
    ensures now < s.nextRun ==> out.1.nextRun == s.nextRun
    ensures now >= s.nextRun ==> out.1.nextRun == IncTime(s.nextRun, c.run, now)
    ensures var polled := if now >= s.nextPoll then AfterPoll(r, cb, truthy) else r;
            out.0 == if now >= s.nextRun then AfterCallback(polled, cb, false) else polled
    ensures Consistent(r) ==> Consistent(out.0)
  {
    var polled := if now >= s.nextPoll then AfterPoll(r, cb, truthy) else r;
    var nextPoll := if now >= s.nextPoll then IncTime(s.nextPoll, c.poll, now) else s.nextPoll;
    var ran := if now >= s.nextRun then AfterCallback(polled, cb, false) else polled;
    var nextRun := if now >= s.nextRun then IncTime(s.nextRun, c.run, now) else s.nextRun;
    (ran, Schedule(nextRun, nextPoll, s.nextWrite))
  }

  /**
   * One pass of the `while True` loop of `run`, after `_wait_until` returned
   * at clock `now`: poll when due, run the callback when due, then write only
   * when the state changed and the write deadline has passed, and in that case
   * push the write deadline to `now + write_interval`.
   */
  function AfterIteration<S(==)>(r: RunnerState<S>, s: Schedule, c: Cadence, cb: Callback<S>, truthy: S -> bool, now: real)
    : (out: (RunnerState<S>, Schedule))
    requires Consistent(r)
    ensures Consistent(out.0)
    ensures var before := AfterPollAndRun(r, s, c, cb, truthy, now);
            out.1.nextRun == before.1.nextRun && out.1.nextPoll == before.1.nextPoll &&
            if before.0.changed && now >= s.nextWrite then
              out.1.nextWrite == now + c.write && out.0 == AfterWrite(before.0, cb, truthy)
            else
              out.1.nextWrite == s.nextWrite && out.0 == before.0
  {
    var before := AfterPollAndRun(r, s, c, cb, truthy, now);
    if before.0.changed && now >= s.nextWrite then
      (AfterWrite(before.0, cb, truthy), before.1.(nextWrite := now + c.write))
    else
      before
  }

  /**
   * A write that meets no external edit leaves the runner in step with the
   * backend at the end of the iteration.
   */
  lemma WriteLeavesInSync<S>(r: RunnerState<S>, s: Schedule, c: Cadence, cb: Callback<S>, truthy: S -> bool, now: real)
    requires Consistent(r)
    requires AfterPollAndRun(r, s, c, cb, truthy, now).0.changed && now >= s.nextWrite
    requires Injected(AfterPollAndRun(r, s, c, cb, truthy, now).0.box, truthy).None?
    ensures InSync(AfterIteration(r, s, c, cb, truthy, now).0)
  {
  }

  /**
   * A callback that never changes the state it is given never causes a
   * write: the change flag stays clear and the write deadline stays put.
   */
  lemma QuietCallbackNeverWrites<S>(r: RunnerState<S>, s: Schedule, c: Cadence, cb: Callback<S>, truthy: S -> bool, now: real)
    requires forall st: Option<S>, b: bool :: cb(st, b) == None || cb(st, b) == st
    requires !r.changed
    ensures !AfterIteration(r, s, c, cb, truthy, now).0.changed
    ensures AfterIteration(r, s, c, cb, truthy, now).1.nextWrite == s.nextWrite
  {
    var polled := if now >= s.nextPoll then AfterPoll(r, cb, truthy) else r;
    if now >= s.nextPoll {
      var v := MockRead(r.box, truthy).1;
      assert cb(Some(v), true) == None || cb(Some(v), true) == Some(v);
    }
    assert !polled.changed;
    assert cb(polled.state, false) == None || cb(polled.state, false) == polled.state;
  }

  /**
   * `run` repeated over a finite prefix of its clock readings; every reading
   * is one return of `_wait_until`.
   */
  function RunFor<S(==)>(r: RunnerState<S>, s: Schedule, c: Cadence, cb: Callback<S>, truthy: S -> bool, clocks: seq<real>)
    : (out: (RunnerState<S>, Schedule))
    requires Consistent(r)
    ensures Consistent(out.0)
    decreases |clocks|
  {
    if clocks == [] then (r, s)
    else
      var next := AfterIteration(r, s, c, cb, truthy, clocks[0]);
      RunFor(next.0, next.1, c, cb, truthy, clocks[1..])
  }

  // ------------------------------------------------------------------------
  // Options
  // ------------------------------------------------------------------------

  /** The kinds of value the options dictionary holds; the callback itself is kept apart. */
  datatype OptionValue = Flag(b: bool) | Number(n: real) | Text(s: string) | Callable | Document(v: JValue)

  type Options = map<string, OptionValue>

  /** `_defaults`: fill in `mock`, `poll_interval` and `write_interval` when, and only when, they are missing. */
  function Defaults(o: Options): (r: Options)
    ensures r.Keys == o.Keys + {"mock", "poll_interval", "write_interval"}
    ensures forall k :: k in o ==> r[k] == o[k]
    ensures "mock" !in o ==> r["mock"] == Flag(false)
    ensures "poll_interval" !in o ==> r["poll_interval"] == Number(10.0)
    ensures "write_interval" !in o ==> r["write_interval"] == Number(0.0)
  {
    var withMock := o["mock" := if "mock" in o then o["mock"] else Flag(false)];
    var withPoll := withMock["poll_interval" := if "poll_interval" in o then o["poll_interval"] else Number(10.0)];
    withPoll["write_interval" := if "write_interval" in o then o["write_interval"] else Number(0.0)]
  }

  /** `_validate`: `id`, `callback` and `run_interval` are required, checked in that order. */
  function Validate(o: Options): (r: Outcome<string>)
    ensures r == Pass <==> "id" in o && "callback" in o && "run_interval" in o
    ensures "id" !in o ==> r == Fail("'id' is not defined, use --id <myid>")
    ensures "id" in o && "callback" !in o ==> r == Fail("'callback' is not defined")
    ensures "id" in o && "callback" in o && "run_interval" !in o ==> r == Fail("'run_interval' is not defined")
  {
    if "id" !in o then Fail("'id' is not defined, use --id <myid>")
    else if "callback" !in o then Fail("'callback' is not defined")
    else if "run_interval" !in o then Fail("'run_interval' is not defined")
    else Pass
  }

  /** Defaulting twice is defaulting once, and it neither adds nor hides a required key. */
  lemma DefaultsIdempotent(o: Options)
    ensures Defaults(Defaults(o)) == Defaults(o)
    ensures Validate(Defaults(o)) == Validate(o)
  {
    assert Defaults(Defaults(o)).Keys == Defaults(o).Keys;
  }

  // ------------------------------------------------------------------------
  // The classes
  // ------------------------------------------------------------------------

  /** `MockTaskBox`: the stored state plus the state file that carries external edits. */
  class MockTaskBox<S> {
    const id: string
    /** Python truthiness of a state read from the file. */
    const truthy: S -> bool
    var state: S
    /** Content of the state file, when the file exists. */
    var pending: Option<S>

    function Model(): MockStore<S>
      reads this
    {
      MockStore(state, pending)
    }

    /** `fileContent` is whatever the state file holds when the mock is created. */
    constructor (id: string, initialState: S, truthy: S -> bool, fileContent: Option<S>)
      ensures this.id == id && this.truthy == truthy
      ensures Model() == MockStore(initialState, fileContent)
    {
      this.id := id;
      this.truthy := truthy;
      state := initialState;
      pending := fileContent;
    }

    /** `_read_and_delete`: hand back the file's content, if any, and remove the file. */
    method ReadAndDelete() returns (content: Option<S>)
      modifies this`pending
      ensures content == old(pending) && pending == None
    {
      content := pending;
      pending := None;
    }

    method Read() returns (r: S)
      modifies this
      ensures (Model(), r) == MockRead(old(Model()), truthy)
    {
      var newState := ReadAndDelete();
      if newState.Some? && truthy(newState.value) {
        state := newState.value;
      }
      r := state;
    }

    method Write(newState: S) returns (outcome: WriteOutcome)
      modifies this
      ensures (Model(), outcome) == MockWrite(old(Model()), newState, truthy)
    {
      var edit := ReadAndDelete();
      if edit.Some? && truthy(edit.value) {
        state := edit.value;
        return ConcurrentModification;
      }
      state := newState;
      outcome := Written;
    }

    /** Somebody outside the program writes the state file. */
    method EditStateFile(content: S)
      modifies this`pending
      ensures pending == Some(content) && state == old(state)
    {
      pending := Some(content);
    }
  }

  /** `TaskBoxRunner` over the mock backend. */
  class TaskBoxRunner<S(==)> {
    const box: MockTaskBox<S>
    const callback: Callback<S>
    const cadence: Cadence
    var state: Option<S>
    var previousBackendState: Option<S>
    var stateChanged: bool
    var nextRunTime: real
    var nextPollTime: real
    var nextWriteTime: real

    predicate Valid()
      reads this
    {
      stateChanged ==> state.Some?
    }

    function Model(): RunnerState<S>
      reads this, box
    {
      RunnerState(state, previousBackendState, stateChanged, box.Model())
    }

    function Timers(): Schedule
      reads this
    {
      Schedule(nextRunTime, nextPollTime, nextWriteTime)
    }

    /**
     * The constructor together with the first lines of `run`: the working
     * state starts as `None`, nothing has been seen and all three deadlines
     * are the present.
     */
    constructor (id: string, mockInit: S, truthy: S -> bool, fileContent: Option<S>,
                 callback: Callback<S>, cadence: Cadence, now: real)
      ensures Valid() && fresh(box)
      ensures box.id == id && box.truthy == truthy
      ensures this.callback == callback && this.cadence == cadence
      ensures Model() == RunnerState(None, None, false, MockStore(mockInit, fileContent))
      ensures Timers() == Schedule(now, now, now)
    {
      box := new MockTaskBox(id, mockInit, truthy, fileContent);
      this.callback := callback;
      this.cadence := cadence;
      state := None;
      previousBackendState := None;
      stateChanged := false;
      nextRunTime := now;
      nextPollTime := now;
      nextWriteTime := now;
    }

    method CallCallback(backendChange: bool)
      requires Valid()
      modifies this`state, this`stateChanged
      ensures Valid()
      ensures Model() == AfterCallback(old(Model()), callback, backendChange)
    {
      var newState := callback(state, backendChange);
      if newState != None && newState != state {
        state := newState;
        stateChanged := true;
      }
    }

    method PollBackend()
      requires Valid()
      modifies this, box
      ensures Valid() && Timers() == old(Timers())
      ensures Model() == AfterPoll(old(Model()), callback, box.truthy)
    {
      var readState := box.Read();
      if Some(readState) != previousBackendState {
        state := Some(readState);
        previousBackendState := Some(readState);
        stateChanged := false;
        CallCallback(true);
      }
    }

    method WriteBackend()
      requires Valid() && state.Some?
      modifies this, box
      ensures Valid() && Timers() == old(Timers())
      ensures Model() == AfterWrite(old(Model()), callback, box.truthy)
    {
      var outcome := box.Write(state.value);
      match outcome
      case Written =>
        previousBackendState := state;
        stateChanged := false;
      case ConcurrentModification =>
        previousBackendState := None;
        PollBackend();
    }

    /**
     * One pass of the loop in `run`. `now` is the clock when `_wait_until`
     * returns, so it has reached the earlier of the run and poll deadlines.
     */
    method RunIteration(now: real)
      requires Valid()
      requires now >= nextRunTime || now >= nextPollTime
      modifies this, box
      ensures Valid()
      ensures (Model(), Timers()) == AfterIteration(old(Model()), old(Timers()), cadence, callback, box.truthy, now)
    {
      if now >= nextPollTime {
        PollBackend();
        nextPollTime := IncTime(nextPollTime, cadence.poll, now);
      }
      if now >= nextRunTime {
        CallCallback(false);
        nextRunTime := IncTime(nextRunTime, cadence.run, now);
      }
      if stateChanged && now >= nextWriteTime {
        WriteBackend();
        nextWriteTime := now + cadence.write;
      }
    }
  }
}
