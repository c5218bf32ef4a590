/** The life cycle of the client's controller: connecting to the daemon with bounded retries. */
module Controller {

  /** How many times a connection is retried. */
  const MAX_CONNECTION_RETRY := 10

  datatype DaemonState = Unknown | Initializing | Ready

  /** What reaches the controller: from its owner, the socket, its retry timer and the daemon. */
  datatype Input =
    | Initialize
    | SocketError                        // also the socket's disconnected signal
    | SocketConnected
    | RetryTimeout                       // fires only while the timer is armed
    | Status(valid: bool, connected: bool)   // a status reply; valid if it has the fields it needs
    | DisconnectedNotice                 // the daemon says it disconnected
    | ConnectedNotice(valid: bool)       // the daemon completed a handshake
    | OtherData                          // data without any of these commands
    | Deactivate

  /** Data from the socket. A read that completes several commands counts as that many inputs. */
  predicate IsData(input: Input) {
    input.Status? || input.DisconnectedNotice? || input.ConnectedNotice? || input.OtherData?
  }

  /** What it writes to the daemon by itself. */
  datatype Request = StatusRequest | DeactivateRequest

  /** What the controller lets others see. */
  datatype Output =
    | Initialized(ok: bool, connected: bool)
    | Disconnected
    | StatusUpdated
    | Connected
    | ConnectAttempt
    | TimerStart
    | Sent(request: Request)
    | AssertionFailed

  datatype State = State(daemon: DaemonState, retry: nat, armed: bool)

  /** `LocalSocketController`. */
  class LocalSocketController {
    var daemonState: DaemonState
    var initializingRetry: nat
    var timerArmed: bool
    ghost var outputs: seq<Output>

    ghost function Now(): State reads this {
      State(daemonState, initializingRetry, timerArmed)
    }

    constructor ()
      ensures Now() == State(Unknown, 0, false) && outputs == []
    {
      daemonState, initializingRetry, timerArmed := Unknown, 0, false;
      outputs := [];
    }

    method ErrorOccurred()
      modifies this
      ensures Now() == React(old(Now()), SocketError).0
      ensures outputs == old(outputs) + React(old(Now()), SocketError).1
    {
      if daemonState == Initializing {
        var attempt := initializingRetry;
        initializingRetry := initializingRetry + 1;
        if attempt < MAX_CONNECTION_RETRY {
          timerArmed := true;
          outputs := outputs + [TimerStart];
          return;
        }
        outputs := outputs + [Initialized(false, false)];
      }
      DisconnectInternal();
    }

    method DisconnectInternal()
      modifies this
      ensures Now() == State(Ready, 0, false)
      ensures outputs == old(outputs) + [Disconnected]
    {
      daemonState, initializingRetry, timerArmed := Ready, 0, false;
      outputs := outputs + [Disconnected];
    }

    method InitializeConnection()
      modifies this
      ensures Now() == React(old(Now()), Initialize).0
      ensures outputs == old(outputs) + React(old(Now()), Initialize).1
    {
      if daemonState != Unknown {
        outputs := outputs + [AssertionFailed];
      }
      initializingRetry := 0;
      InitializeInternal();
    }

    method InitializeInternal()
      modifies this
      ensures Now() == old(Now()).(daemon := Initializing)
      ensures outputs == old(outputs) + [ConnectAttempt]
    {
      daemonState := Initializing;
      outputs := outputs + [ConnectAttempt];
    }

    method OnTimeout()
      requires timerArmed
      modifies this
      ensures Now() == React(old(Now()), RetryTimeout).0
      ensures outputs == old(outputs) + React(old(Now()), RetryTimeout).1
    {
      timerArmed := false;
      InitializeInternal();
    }

    method CheckStatus()
      modifies this`outputs
      ensures outputs == old(outputs) + if daemonState == Unknown then [] else [Sent(StatusRequest)]
    {
      if daemonState == Ready || daemonState == Initializing {
        outputs := outputs + [Sent(StatusRequest)];
      }
    }

    method DaemonConnected()
      modifies this`outputs
      ensures outputs == old(outputs) + React(Now(), SocketConnected).1
    {
      if daemonState != Initializing {
        outputs := outputs + [AssertionFailed];
      }
      CheckStatus();
    }

    method ParseStatus(valid: bool, connected: bool)
      modifies this
      ensures Now() == Answer(old(Now()), Status(valid, connected)).0
      ensures outputs == old(outputs) + Answer(old(Now()), Status(valid, connected)).1
    {
      if daemonState == Initializing {
        daemonState := Ready;
        if !valid {
          return;
        }
        outputs := outputs + [Initialized(true, connected)];
        return;
      }
      if daemonState != Ready {
        return;
      }
      if valid {
        outputs := outputs + [StatusUpdated];
      }
    }

    /** `readData`, up to the command. */
    method ReadData()
      modifies this`outputs
      ensures outputs == old(outputs) + Unexpected(daemonState)
    {
      if !(daemonState == Initializing || daemonState == Ready) {
        outputs := outputs + [AssertionFailed];
      }
    }

    /** One input of any kind. */
    method Handle(input: Input)
      modifies this
      ensures Now() == React(old(Now()), input).0
      ensures outputs == old(outputs) + React(old(Now()), input).1
    {
      if IsData(input) {
        ReadData();
      }
      match input {
        case Initialize => InitializeConnection();
        case SocketError => ErrorOccurred();
        case SocketConnected => DaemonConnected();
        case RetryTimeout =>
          if timerArmed {
            OnTimeout();
          }
        case Status(valid, connected) => ParseStatus(valid, connected);
        case DisconnectedNotice =>
          if daemonState == Ready {
            DisconnectInternal();
          }
        case ConnectedNotice(valid) =>
          if daemonState == Ready && valid {
            CheckStatus();
            outputs := outputs + [StatusUpdated];
            outputs := outputs + [Connected];
          }
        case OtherData =>
        case Deactivate =>
          if daemonState == Ready {
            outputs := outputs + [Sent(DeactivateRequest)];
          }
          outputs := outputs + [Disconnected];
      }
    }
  }

  /** Data before the controller was initialized trips an assertion. */
  function Unexpected(daemon: DaemonState): seq<Output> {
    if daemon == Unknown then [AssertionFailed] else []
  }

  /** The new state and the outputs of one input. */
  function React(s: State, input: Input): (State, seq<Output>) {
    if IsData(input) then
      var answer := Answer(s, input);
      (answer.0, Unexpected(s.daemon) + answer.1)
    else Answer(s, input)
  }

  function Answer(s: State, input: Input): (State, seq<Output>) {
    match input
    case Initialize =>
      (State(Initializing, 0, s.armed),
       (if s.daemon != Unknown then [AssertionFailed] else []) + [ConnectAttempt])
    case SocketError =>
      if s.daemon == Initializing && s.retry < MAX_CONNECTION_RETRY
      then (State(Initializing, s.retry + 1, true), [TimerStart])
      else (State(Ready, 0, false),
            (if s.daemon == Initializing then [Initialized(false, false)] else []) + [Disconnected])
    case SocketConnected =>
      (s, (if s.daemon != Initializing then [AssertionFailed] else [])
          + (if s.daemon == Unknown then [] else [Sent(StatusRequest)]))
    case RetryTimeout =>
      if s.armed then (State(Initializing, s.retry, false), [ConnectAttempt]) else (s, [])
    case Status(valid, connected) =>
      if s.daemon == Initializing
      then (s.(daemon := Ready), if valid then [Initialized(true, connected)] else [])
      else (s, if s.daemon == Ready && valid then [StatusUpdated] else [])
    case DisconnectedNotice =>
      if s.daemon == Ready then (State(Ready, 0, false), [Disconnected]) else (s, [])
    case ConnectedNotice(valid) =>
      (s, if s.daemon == Ready && valid then [Sent(StatusRequest), StatusUpdated, Connected] else [])
    case OtherData => (s, [])
    case Deactivate => (s, (if s.daemon == Ready then [Sent(DeactivateRequest)] else []) + [Disconnected])
  }

  const FRESH := State(Unknown, 0, false)

  /** The state and all outputs after the inputs of a run. */
  function After(inputs: seq<Input>): (State, seq<Output>) {
    if inputs == [] then (FRESH, [])
    else
      var before := After(inputs[..|inputs| - 1]);
      var step := React(before.0, inputs[|inputs| - 1]);
      (step.0, before.1 + step.1)
  }

  /** Any run of the controller follows `After`. */
  method Serve(controller: LocalSocketController, inputs: seq<Input>)
    requires controller.Now() == FRESH && controller.outputs == []
    modifies controller
    ensures (controller.Now(), controller.outputs) == After(inputs)
  {
    for i := 0 to |inputs|
      invariant (controller.Now(), controller.outputs) == After(inputs[..i])
    {
      assert inputs[..i + 1][..i] == inputs[..i];
      controller.Handle(inputs[i]);
    }
    assert inputs[..|inputs|] == inputs;
  }

  /** An input in its place: the controller is initialized once and before any socket event, and no
      status reply arrives between a connection error and the next attempt. */
  predicate InPlace(s: State, input: Input) {
    match input
    case Initialize => s.daemon == Unknown
    case SocketError => s.daemon != Unknown
    case SocketConnected => s.daemon != Unknown
    case Status(_, _) => s.daemon != Unknown && !s.armed
    case _ => true
  }

  ghost predicate Orderly(inputs: seq<Input>) {
    forall k :: 0 <= k < |inputs| ==> InPlace(After(inputs[..k]).0, inputs[k])
  }

  function Starts(outputs: seq<Output>): nat {
    if outputs == [] then 0
    else Starts(outputs[..|outputs| - 1]) + if outputs[|outputs| - 1] == TimerStart then 1 else 0
  }

  function Initializations(outputs: seq<Output>): nat {
    if outputs == [] then 0
    else Initializations(outputs[..|outputs| - 1]) + if outputs[|outputs| - 1].Initialized? then 1 else 0
  }

  lemma {:induction false} TalliesJoin(a: seq<Output>, b: seq<Output>)
    ensures Starts(a + b) == Starts(a) + Starts(b)
    ensures Initializations(a + b) == Initializations(a) + Initializations(b)
  {
    if b == [] {
      assert a + b == a;
    } else {
      var c := a + b;
      assert c[..|c| - 1] == a + b[..|b| - 1];
      TalliesJoin(a, b[..|b| - 1]);
    }
  }

  /** What every orderly run keeps. */
  ghost predicate InLine(s: State, outputs: seq<Output>) {
    && (s.armed ==> s.daemon == Initializing)
    && s.retry <= MAX_CONNECTION_RETRY
    && (match s.daemon
        case Unknown => Starts(outputs) == 0 && Initializations(outputs) == 0 && s.retry == 0
        case Initializing => Starts(outputs) == s.retry && Initializations(outputs) == 0
        case Ready => Starts(outputs) <= MAX_CONNECTION_RETRY && Initializations(outputs) <= 1)
  }

  lemma TalliesOfStep(s: State, input: Input)
    ensures var o := React(s, input).1;
            && Starts(o) == (if input == SocketError && s.daemon == Initializing && s.retry < MAX_CONNECTION_RETRY then 1 else 0)
            && Initializations(o) ==
                 (if (input == SocketError && s.daemon == Initializing && s.retry >= MAX_CONNECTION_RETRY)
                     || (input.Status? && input.valid && s.daemon == Initializing) then 1 else 0)
  {
    TalliesOfFew(React(s, input).1);
  }

  lemma TalliesOfFew(o: seq<Output>)
    requires |o| <= 3
    ensures Starts(o) == (if |o| > 0 && o[0] == TimerStart then 1 else 0)
                         + (if |o| > 1 && o[1] == TimerStart then 1 else 0)
                         + (if |o| > 2 && o[2] == TimerStart then 1 else 0)
    ensures Initializations(o) == (if |o| > 0 && o[0].Initialized? then 1 else 0)
                                  + (if |o| > 1 && o[1].Initialized? then 1 else 0)
                                  + (if |o| > 2 && o[2].Initialized? then 1 else 0)
  {
    if |o| == 1 {
      assert o == [o[0]];
      TalliesOfOne(o[0]);
    } else if |o| == 2 {
      TalliesOfTwo(o[0], o[1]);
      assert o == [o[0]] + [o[1]];
    } else if |o| == 3 {
      TalliesOfTwo(o[0], o[1]);
      TalliesOfOne(o[2]);
      assert o == ([o[0]] + [o[1]]) + [o[2]];
      TalliesJoin([o[0]] + [o[1]], [o[2]]);
    }
  }

  lemma TalliesOfTwo(x: Output, y: Output)
    ensures Starts([x] + [y]) == (if x == TimerStart then 1 else 0) + if y == TimerStart then 1 else 0
    ensures Initializations([x] + [y]) == (if x.Initialized? then 1 else 0) + if y.Initialized? then 1 else 0
  {
    TalliesOfOne(x);
    TalliesOfOne(y);
    TalliesJoin([x], [y]);
  }

  lemma TalliesOfOne(x: Output)
    ensures Starts([x]) == if x == TimerStart then 1 else 0
    ensures Initializations([x]) == if x.Initialized? then 1 else 0
  {
    assert [x][..0] == [];
  }

  lemma StepStaysInLine(s: State, outputs: seq<Output>, input: Input)
    requires InLine(s, outputs) && InPlace(s, input)
    ensures InLine(React(s, input).0, outputs + React(s, input).1)
  {
    TalliesJoin(outputs, React(s, input).1);
    TalliesOfStep(s, input);
  }

  /** Over every orderly run the retry timer is armed only while initializing, it is started at
      most ten times, and `initialized` is emitted at most once. */
  lemma {:induction false} OrderlyRunsStayInLine(inputs: seq<Input>)
    requires Orderly(inputs)
    ensures InLine(After(inputs).0, After(inputs).1)
  {
    if inputs == [] {
    } else {
      var init := inputs[..|inputs| - 1];
      assert forall k :: 0 <= k < |init| ==> init[..k] == inputs[..k] && init[k] == inputs[k];
      OrderlyRunsStayInLine(init);
      assert InPlace(After(inputs[..|inputs| - 1]).0, inputs[|inputs| - 1]);
      StepStaysInLine(After(init).0, After(init).1, inputs[|inputs| - 1]);
    }
  }

  // ---- a socket that behaves

  /** The socket as its events show it. */
  datatype Link = Idle | Connecting | Up | Down

  /** Each attempt starts a connection, each connection brings the link up, each error down. */
  function NextLink(link: Link, input: Input, attempted: bool): Link {
    if attempted then Connecting
    else if input == SocketConnected then Up
    else if input == SocketError then Down
    else link
  }

  function LinkAfter(inputs: seq<Input>): Link {
    if inputs == [] then Idle
    else
      var init, last := inputs[..|inputs| - 1], inputs[|inputs| - 1];
      NextLink(LinkAfter(init), last, ConnectAttempt in React(After(init).0, last).1)
  }

  /** The owner initializes first and once; a connection answers the latest attempt, no error in
      between; data arrives only on a connection; errors may come at any time after an attempt. */
  predicate Plausible(link: Link, input: Input) {
    match input
    case Initialize => link == Idle
    case SocketConnected => link == Connecting
    case SocketError => link != Idle
    case _ => IsData(input) ==> link == Up
  }

  ghost predicate WellBehaved(inputs: seq<Input>) {
    forall k :: 0 <= k < |inputs| ==> Plausible(LinkAfter(inputs[..k]), inputs[k])
  }

  /** What the link tells about the controller: while a connection is under way the controller is
      initializing and no retry is due; once it is up no retry is due either. */
  ghost predicate Follows(s: State, link: Link) {
    match link
    case Idle => s == FRESH
    case Connecting => s.daemon == Initializing && !s.armed
    case Up => s.daemon != Unknown && !s.armed
    case Down => s.daemon != Unknown
  }

  lemma StepFollows(s: State, link: Link, input: Input)
    requires Follows(s, link) && Plausible(link, input)
    ensures Follows(React(s, input).0, NextLink(link, input, ConnectAttempt in React(s, input).1))
    ensures AssertionFailed !in React(s, input).1 && InPlace(s, input)
  {
    if input == Initialize {
      assert React(s, input).1[0] == ConnectAttempt;
    }
  }

  /** Over every run with a well-behaved socket no assertion is ever false. */
  lemma {:induction false} WellBehavedRunsTripNoAssertion(inputs: seq<Input>)
    requires WellBehaved(inputs)
    ensures Follows(After(inputs).0, LinkAfter(inputs))
    ensures AssertionFailed !in After(inputs).1
  {
    if inputs == [] {
    } else {
      var init, last := inputs[..|inputs| - 1], inputs[|inputs| - 1];
      PrefixBehaves(inputs);
      WellBehavedRunsTripNoAssertion(init);
      StepFollows(After(init).0, LinkAfter(init), last);
    }
  }

  lemma PrefixBehaves(inputs: seq<Input>)
    requires inputs != [] && WellBehaved(inputs)
    ensures var init, last := inputs[..|inputs| - 1], inputs[|inputs| - 1];
            WellBehaved(init) && Plausible(LinkAfter(init), last)
  {
    var init := inputs[..|inputs| - 1];
    forall k | 0 <= k < |init|
      ensures Plausible(LinkAfter(init[..k]), init[k])
    {
      assert init[..k] == inputs[..k];
    }
  }

  /** Such a run is orderly, so it keeps the bounds on the timer, the retries and `initialized`. */
  lemma {:induction false} WellBehavedRunsAreOrderly(inputs: seq<Input>)
    requires WellBehaved(inputs)
    ensures Orderly(inputs) && InLine(After(inputs).0, After(inputs).1)
  {
    forall k | 0 <= k < |inputs|
      ensures InPlace(After(inputs[..k]).0, inputs[k])
    {
      var init := inputs[..k];
      assert forall j :: 0 <= j < k ==> init[..j] == inputs[..j];
      WellBehavedRunsTripNoAssertion(init);
      StepFollows(After(init).0, LinkAfter(init), inputs[k]);
    }
    OrderlyRunsStayInLine(inputs);
  }

  // ---- exactly when the assertions hold

  /** The controller has been initialized or has seen a socket error. */
  predicate Woken(inputs: seq<Input>) {
    Initialize in inputs || SocketError in inputs
  }

  /** A connection is being waited for, as the events show: the last attempt was followed by no
      status reply and by no error that was not answered by starting the retry timer. */
  predicate Waiting(inputs: seq<Input>) {
    inputs != [] &&
    var init, last := inputs[..|inputs| - 1], inputs[|inputs| - 1];
    var o := React(After(init).0, last).1;
    if ConnectAttempt in o then true
    else if last.Status? then false
    else if last == SocketError then Waiting(init) && TimerStart in o
    else Waiting(init)
  }

  lemma {:induction false} WokenAndWaiting(inputs: seq<Input>)
    ensures After(inputs).0.daemon == Unknown <==> !Woken(inputs)
    ensures After(inputs).0.daemon == Unknown ==> !After(inputs).0.armed
    ensures After(inputs).0.daemon == Initializing <==> Waiting(inputs)
  {
    if inputs == [] {
    } else {
      var init, last := inputs[..|inputs| - 1], inputs[|inputs| - 1];
      WokenAndWaiting(init);
      assert inputs == init + [last];
      StepWakes(After(init).0, last);
    }
  }

  lemma StepWakes(s: State, input: Input)
    requires s.daemon == Unknown ==> !s.armed
    ensures var (b, o) := React(s, input);
            && (b.daemon == Unknown <==> s.daemon == Unknown && input != Initialize && input != SocketError)
            && (b.daemon == Unknown ==> !b.armed)
            && (b.daemon == Initializing <==>
                  if ConnectAttempt in o then true
                  else if input.Status? then false
                  else if input == SocketError then s.daemon == Initializing && TimerStart in o
                  else s.daemon == Initializing)
  {
    var o := React(s, input).1;
    if input == Initialize {
      assert o[|o| - 1] == ConnectAttempt;
    } else if input == SocketError && s.daemon == Initializing && s.retry < MAX_CONNECTION_RETRY {
      assert o[0] == TimerStart;
    } else if input == RetryTimeout && s.armed {
      assert o[0] == ConnectAttempt;
    }
  }

  /** What one more input makes the controller emit. */
  function Reply(inputs: seq<Input>, input: Input): seq<Output> {
    React(After(inputs).0, input).1
  }

  /** The run got past its initialization: it was woken and no connection is waited for. */
  predicate Settled(inputs: seq<Input>) {
    Woken(inputs) && !Waiting(inputs)
  }

  /** The event disconnected the controller: an error or a notice that made it say so. */
  predicate Reset(inputs: seq<Input>, input: Input) {
    (input == SocketError || input == DisconnectedNotice) && Disconnected in Reply(inputs, input)
  }

  /** How often the retry timer was started since the last initialization or disconnection. */
  function RetriesUsed(inputs: seq<Input>): nat {
    if inputs == [] then 0
    else
      var init, last := inputs[..|inputs| - 1], inputs[|inputs| - 1];
      if last == Initialize || Reset(init, last) then 0
      else RetriesUsed(init) + if TimerStart in Reply(init, last) then 1 else 0
  }

  /** The retry timer was started and neither fired nor was stopped by a disconnection since. */
  predicate Due(inputs: seq<Input>) {
    inputs != [] &&
    var init, last := inputs[..|inputs| - 1], inputs[|inputs| - 1];
    if TimerStart in Reply(init, last) then true
    else !(last == RetryTimeout || Reset(init, last)) && Due(init)
  }

  lemma StepCounts(s: State, input: Input)
    ensures var (b, o) := React(s, input);
            var reset := (input == SocketError || input == DisconnectedNotice) && Disconnected in o;
            && b.retry == (if input == Initialize || reset then 0 else s.retry + if TimerStart in o then 1 else 0)
            && b.armed == (TimerStart in o || (s.armed && input != RetryTimeout && !reset))
  {
    var o := React(s, input).1;
    if input == SocketError {
      if s.daemon == Initializing && s.retry < MAX_CONNECTION_RETRY {
        assert o == [TimerStart];
      } else {
        assert o[|o| - 1] == Disconnected;
      }
    } else if input == DisconnectedNotice && s.daemon == Ready {
      assert o[|o| - 1] == Disconnected;
    }
  }

  /** The controller's state is what its inputs and outputs show. */
  lemma {:induction false} StateIsVisible(inputs: seq<Input>)
    ensures Shown(After(inputs).0) == SeenIn(inputs)
  {
    WokenAndWaiting(inputs);
    if inputs == [] {
    } else {
      var init, last := inputs[..|inputs| - 1], inputs[|inputs| - 1];
      StateIsVisible(init);
      StepCounts(After(init).0, last);
    }
  }

  /** What the events and signals of a run show of it. */
  datatype Seen = Seen(woken: bool, waiting: bool, settled: bool, retries: nat, due: bool)

  function SeenIn(inputs: seq<Input>): Seen {
    Seen(Woken(inputs), Waiting(inputs), Settled(inputs), RetriesUsed(inputs), Due(inputs))
  }

  function Shown(s: State): Seen {
    Seen(s.daemon != Unknown, s.daemon == Initializing, s.daemon == Ready, s.retry, s.armed)
  }

  /** What the signals of starting up mean. */
  ghost predicate MeansStart(seen: Seen, input: Input, o: seq<Output>) {
    // initialized(true, c): a valid status reply with that c, while a connection is waited for
    && (forall c :: Initialized(true, c) in o <==> input == Status(true, c) && seen.waiting)
    // initialized(false, c): the error that finds ten retries used up, with c false
    && (forall c :: Initialized(false, c) in o <==>
          input == SocketError && seen.waiting && seen.retries >= 10 && !c)
    && (TimerStart in o <==> input == SocketError && seen.waiting && seen.retries < 10)
    && (ConnectAttempt in o <==> input == Initialize || (input == RetryTimeout && seen.due))
  }

  /** What the other signals mean. */
  ghost predicate MeansRest(seen: Seen, input: Input, o: seq<Output>) {
    && (Disconnected in o <==>
          || input == Deactivate
          || (input == SocketError && !(seen.waiting && seen.retries < 10))
          || (input == DisconnectedNotice && seen.settled))
    && (Connected in o <==> input == ConnectedNotice(true) && seen.settled)
    && (StatusUpdated in o <==>
          seen.settled && (input == ConnectedNotice(true) || (input.Status? && input.valid)))
    && (Sent(StatusRequest) in o <==>
          (input == SocketConnected && seen.woken) || (input == ConnectedNotice(true) && seen.settled))
    && (Sent(DeactivateRequest) in o <==> input == Deactivate && seen.settled)
  }

  lemma MembersOfReply(s: State, input: Input, x: Output)
    ensures var o := React(s, input).1;
            && |o| <= 3
            && (x in o <==> (|o| > 0 && x == o[0]) || (|o| > 1 && x == o[1]) || (|o| > 2 && x == o[2]))
  {
  }

  lemma StepMeansStart(s: State, input: Input)
    ensures MeansStart(Shown(s), input, React(s, input).1)
  {
    MembersOfReply(s, input, Initialized(true, true));
    MembersOfReply(s, input, Initialized(true, false));
    MembersOfReply(s, input, Initialized(false, true));
    MembersOfReply(s, input, Initialized(false, false));
    MembersOfReply(s, input, TimerStart);
    MembersOfReply(s, input, ConnectAttempt);
  }

  lemma StepMeansRest(s: State, input: Input)
    ensures MeansRest(Shown(s), input, React(s, input).1)
  {
    MembersOfReply(s, input, Disconnected);
    MembersOfReply(s, input, Connected);
    MembersOfReply(s, input, StatusUpdated);
    MembersOfReply(s, input, Sent(StatusRequest));
    MembersOfReply(s, input, Sent(DeactivateRequest));
  }

  /** Over every run, each signal is emitted exactly at the events it stands for, given by what was
      seen before; in particular `initialized` carries what the daemon replied. */
  lemma SignalsMeanWhatTheySay(inputs: seq<Input>, input: Input)
    ensures MeansStart(SeenIn(inputs), input, Reply(inputs, input))
    ensures MeansRest(SeenIn(inputs), input, Reply(inputs, input))
  {
    StateIsVisible(inputs);
    StepMeansStart(After(inputs).0, input);
    StepMeansRest(After(inputs).0, input);
  }

  /** The event comes when it may: initialization before anything that wakes the controller, data
      after it, and a connection while one is waited for. */
  predicate Timely(before: seq<Input>, input: Input) {
    && (input == Initialize ==> !Woken(before))
    && (IsData(input) ==> Woken(before))
    && (input == SocketConnected ==> Waiting(before))
  }

  ghost predicate AllTimely(inputs: seq<Input>) {
    forall k :: 0 <= k < |inputs| ==> Timely(inputs[..k], inputs[k])
  }

  lemma StepAssertion(s: State, input: Input)
    ensures AssertionFailed in React(s, input).1
       <==> || (input == Initialize && s.daemon != Unknown)
            || (IsData(input) && s.daemon == Unknown)
            || (input == SocketConnected && s.daemon != Initializing)
  {
    if AssertionFailed !in React(s, input).1 && (IsData(input) || input == Initialize || input == SocketConnected) {
      assert React(s, input).1 == [] || React(s, input).1[0] != AssertionFailed;
    }
  }

  /** Over every run, well-behaved or not, no assertion is false if and only if every event of the
      run is timely. */
  lemma {:induction false} AssertionsHoldExactlyWhenTimely(inputs: seq<Input>)
    ensures AssertionFailed !in After(inputs).1 <==> AllTimely(inputs)
  {
    if inputs == [] {
    } else {
      var init, last := inputs[..|inputs| - 1], inputs[|inputs| - 1];
      AssertionsHoldExactlyWhenTimely(init);
      StepAssertion(After(init).0, last);
      WokenAndWaiting(init);
      TimelyOneMore(inputs);
    }
  }

  lemma TimelyOneMore(inputs: seq<Input>)
    requires inputs != []
    ensures var init, last := inputs[..|inputs| - 1], inputs[|inputs| - 1];
            AllTimely(inputs) <==> AllTimely(init) && Timely(init, last)
  {
    var init := inputs[..|inputs| - 1];
    assert forall k :: 0 <= k < |init| ==> init[..k] == inputs[..k];
  }

  /** Data before anything else makes the assertion of `readData` false. */
  lemma EarlyDataTripsTheAssertion()
    ensures AssertionFailed in After([Status(true, false)]).1
  {
    assert [Status(true, false)][..0] == [];
    assert After([Status(true, false)]).1 == [AssertionFailed];
  }

  /** An input leaves the timer armed only while initializing exactly if it is not a status reply
      that arrives while a retry is due. */
  lemma TimerStaysWithInitializing(s: State, input: Input)
    requires s.armed ==> s.daemon == Initializing
    ensures (React(s, input).0.armed ==> React(s, input).0.daemon == Initializing)
       <==> !(input.Status? && s.armed)
  {
  }

  lemma AfterOneMore(inputs: seq<Input>, input: Input)
    ensures After(inputs + [input]).0 == React(After(inputs).0, input).0
    ensures Initializations(After(inputs + [input]).1)
         == Initializations(After(inputs).1) + Initializations(React(After(inputs).0, input).1)
  {
    assert (inputs + [input])[..|inputs|] == inputs;
    TalliesJoin(After(inputs).1, React(After(inputs).0, input).1);
  }

  // ---- exactly when `initialized` may come again

  /** The state and the outputs of inputs that come after the state `s`. */
  function From(s: State, inputs: seq<Input>): (State, seq<Output>) {
    if inputs == [] then (s, [])
    else
      var before := From(s, inputs[..|inputs| - 1]);
      var step := React(before.0, inputs[|inputs| - 1]);
      (step.0, before.1 + step.1)
  }

  lemma Regroup(a: seq<Input>, b: seq<Input>, c: seq<Input>)
    ensures a + b + c == a + (b + c)
  {
  }

  lemma LastRegroups(inputs: seq<Input>, more: seq<Input>)
    requires more != []
    ensures inputs + more == (inputs + more[..|more| - 1]) + [more[|more| - 1]]
  {
  }

  lemma {:induction false} AfterJoins(inputs: seq<Input>, more: seq<Input>)
    ensures After(inputs + more).0 == From(After(inputs).0, more).0
    ensures Initializations(After(inputs + more).1)
         == Initializations(After(inputs).1) + Initializations(From(After(inputs).0, more).1)
    decreases |more|
  {
    if more == [] {
      assert inputs + more == inputs;
    } else {
      var init, last := more[..|more| - 1], more[|more| - 1];
      AfterJoins(inputs, init);
      LastRegroups(inputs, more);
      AfterOneMore(inputs + init, last);
      TalliesJoin(From(After(inputs).0, init).1, React(From(After(inputs).0, init).0, last).1);
    }
  }

  lemma QuietStep(s: State, input: Input)
    requires s.daemon == Ready && !s.armed && input != Initialize
    ensures React(s, input).0.daemon == Ready && !React(s, input).0.armed
    ensures Initializations(React(s, input).1) == 0
  {
    TalliesOfStep(s, input);
  }

  /** A controller that is ready, with no retry due, stays so and emits `initialized` no more. */
  lemma {:induction false} ReadyStaysQuiet(s: State, more: seq<Input>)
    requires s.daemon == Ready && !s.armed && Initialize !in more
    ensures From(s, more).0.daemon == Ready && !From(s, more).0.armed
    ensures Initializations(From(s, more).1) == 0
  {
    if more == [] {
    } else {
      var init, last := more[..|more| - 1], more[|more| - 1];
      assert last in more;
      ReadyStaysQuiet(s, init);
      QuietStep(From(s, init).0, last);
      TalliesJoin(From(s, init).1, React(From(s, init).0, last).1);
    }
  }

  lemma FromOneMore(s: State, inputs: seq<Input>, input: Input)
    ensures From(s, inputs + [input]).0 == React(From(s, inputs).0, input).0
    ensures Initializations(From(s, inputs + [input]).1)
         == Initializations(From(s, inputs).1) + Initializations(React(From(s, inputs).0, input).1)
  {
    assert (inputs + [input])[..|inputs|] == inputs;
    TalliesJoin(From(s, inputs).1, React(From(s, inputs).0, input).1);
  }

  /** While a retry is due, the retry and one valid reply emit `initialized`. */
  lemma DueRetryInitializes(s: State)
    requires s.armed
    ensures Initializations(From(s, [RetryTimeout] + [Status(true, false)]).1) == 1
  {
    assert [] + [RetryTimeout] == [RetryTimeout];
    FromOneMore(s, [], RetryTimeout);
    TalliesOfStep(s, RetryTimeout);
    FromOneMore(s, [RetryTimeout], Status(true, false));
    TalliesOfStep(From(s, [RetryTimeout]).0, Status(true, false));
  }

  /** Whatever follows the state but another initialization, `initialized` is not emitted. */
  ghost predicate QuietFrom(s: State) {
    forall more :: Initialize !in more ==> Initializations(From(s, more).1) == 0
  }

  /** However the run goes on without another initialization, it emits `initialized` no more. */
  ghost predicate QuietAfter(run: seq<Input>) {
    forall more :: Initialize !in more ==> Initializations(After(run + more).1) == Initializations(After(run).1)
  }

  lemma QuietRuns(run: seq<Input>)
    ensures QuietAfter(run) <==> QuietFrom(After(run).0)
  {
    forall more: seq<Input>
      ensures Initializations(After(run + more).1) == Initializations(After(run).1)
         <==> Initializations(From(After(run).0, more).1) == 0
    {
      AfterJoins(run, more);
    }
  }

  /** An input that emits `initialized` is the last to do so, whatever follows but another
      initialization, if and only if it is not a status reply that arrives while a retry is due. */
  lemma InitializedIsLastExactlyWhen(s: State, input: Input)
    requires Initializations(React(s, input).1) == 1
    ensures QuietFrom(React(s, input).0) <==> !(input.Status? && s.armed)
  {
    var b := React(s, input).0;
    TalliesOfStep(s, input);
    if input.Status? && s.armed {
      DueRetryInitializes(b);
      assert Initialize !in [RetryTimeout] + [Status(true, false)];
    } else {
      forall more | Initialize !in more
        ensures Initializations(From(b, more).1) == 0
      {
        ReadyStaysQuiet(b, more);
      }
    }
  }

  /** The same over every run: after the input that made it initialized, the run emits `initialized`
      no more, however it goes on, if and only if that input is not a status reply while a retry is due. */
  lemma RunInitializesOnceExactlyWhen(inputs: seq<Input>, input: Input)
    requires Initializations(React(After(inputs).0, input).1) == 1
    ensures QuietAfter(inputs + [input]) <==> !(input.Status? && After(inputs).0.armed)
  {
    AfterOneMore(inputs, input);
    QuietRuns(inputs + [input]);
    InitializedIsLastExactlyWhen(After(inputs).0, input);
  }

  /** A valid status reply between an error and the next attempt: the due retry initializes the
      controller once more, and the next reply makes it emit `initialized` again. */
  lemma EarlyStatusInitializesTwice(inputs: seq<Input>)
    requires After(inputs).0.daemon == Initializing && After(inputs).0.armed
    ensures var more := [Status(true, false)] + ([RetryTimeout] + [Status(true, false)]);
            Initializations(After(inputs + more).1) == Initializations(After(inputs).1) + 2
  {
    var reply, more := Status(true, false), [RetryTimeout] + [Status(true, false)];
    TalliesOfStep(After(inputs).0, reply);
    AfterOneMore(inputs, reply);
    DueRetryInitializes(After(inputs + [reply]).0);
    AfterJoins(inputs + [reply], more);
    Regroup(inputs, [reply], more);
  }

  /** Such a run exists: one failed attempt is enough. */
  lemma OneErrorArmsTheTimer()
    ensures After([Initialize] + [SocketError]).0 == State(Initializing, 1, true)
    ensures Orderly([Initialize] + [SocketError])
  {
    AfterOneMore([], Initialize);
    assert [] + [Initialize] == [Initialize];
    AfterOneMore([Initialize], SocketError);
    var inputs := [Initialize] + [SocketError];
    assert inputs[..0] == [] && inputs[..1] == [Initialize];
  }
}
