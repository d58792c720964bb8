/**
 * The JSON-RPC multiplexer of the MCP transport (runtime/internal/mcp/transport.go) as a transition system:
 * concurrent Requests, one read loop, any number of Close callers. Each step is one atomic action: an atomic
 * add, a critical section under pendingMu, a channel operation, or a select branch. The drain is the one
 * critical section of several steps, so while it runs no other step may touch the pending table.
 */
module Transport {
  import opened Wrappers
  import opened Decimal

  /** A response: its id as it stands on the wire, and the rest. */
  datatype Reply = Reply(id: string, body: string)

  datatype Outcome = Got(reply: Reply) | WriteFailed | Cancelled | TransportClosed

  /** How far one Request has come. */
  datatype Phase = Counted | Registered | Waiting | Leaving(outcome: Outcome) | Returned(result: Outcome)

  /** One Request: its id, its reply channel (buffered by one), and how often that channel was sent to. */
  datatype Caller = Caller(id: nat, phase: Phase, buffer: Option<Reply>, sends: nat)

  /** What the read loop finds on a line. */
  datatype Line = Response(reply: Reply) | Other

  datatype Reader =
    | NotStarted
    | Scanning
    | Dispatching(line: Line)
    | Routing(caller: nat, reply: Reply)
    | Signalling
    | Locking
    | Draining
    | DrainSent(key: string)
    | ClosingDone
    | Exited

  datatype Closer = Entering | Signals | ClosesReader | Awaits | CloseReturned

  datatype State = State(nextId: nat, callers: map<nat, Caller>, pending: map<string, nat>, reader: Reader,
                         stopOnce: bool, stopCloses: nat, doneCloses: nat,
                         closeOnce: Option<nat>, closeRan: bool, closers: map<nat, Closer>)

  const INITIAL: State := State(0, map[], map[], NotStarted, false, 0, 0, None, false, map[])

  datatype Step =
    | Begin(c: nat)
    | Register(c: nat)
    | Write(c: nat, ok: bool)
    | Receive(c: nat)
    | Cancel(c: nat)
    | SeeStop(c: nat)
    | Leave(c: nat)
    | Start
    | ReadLine(found: Line)
    | Eof
    | Dispatch
    | Send
    | Signal
    | Lock
    | DrainSend(key: string)
    | DrainDelete
    | DrainEnd
    | CloseDone
    | Close(x: nat)
    | CloseEnter(x: nat)
    | CloseSignal(x: nat)
    | CloseReader(x: nat)
    | CloseReturn(x: nat)

  predicate Locked(s: State) {
    s.reader.Draining? || s.reader.DrainSent?
  }

  predicate Stopped(s: State) {
    s.stopCloses > 0
  }

  predicate InPhase(s: State, c: nat, phase: Phase) {
    c in s.callers && s.callers[c].phase == phase
  }

  predicate CloserIn(s: State, x: nat, phase: Closer) {
    x in s.closers && s.closers[x] == phase
  }

  /** A step of a Request. */
  predicate MovesCaller(step: Step) {
    step.Begin? || step.Register? || step.Write? || step.Receive? || step.Cancel? || step.SeeStop? || step.Leave?
  }

  /** A step of a Close. */
  predicate MovesCloser(step: Step) {
    step.Close? || step.CloseEnter? || step.CloseSignal? || step.CloseReader? || step.CloseReturn?
  }

  predicate CallerCan(s: State, step: Step)
    requires MovesCaller(step)
  {
    match step
    case Begin(c) => c !in s.callers
    case Register(c) => InPhase(s, c, Counted) && !Locked(s)
    case Write(c, ok) => InPhase(s, c, Registered)
    case Receive(c) => InPhase(s, c, Waiting) && s.callers[c].buffer.Some?
    case Cancel(c) => InPhase(s, c, Waiting)
    case SeeStop(c) => InPhase(s, c, Waiting) && Stopped(s)
    case Leave(c) => c in s.callers && s.callers[c].phase.Leaving? && !Locked(s)
  }

  predicate ReaderCan(s: State, step: Step)
    requires !MovesCaller(step) && !MovesCloser(step)
  {
    match step
    case Start => s.reader.NotStarted?
    case ReadLine(found) => s.reader.Scanning?
    case Eof => s.reader.Scanning?
    case Dispatch => s.reader.Dispatching?
    case Send => s.reader.Routing? && s.reader.caller in s.callers && s.callers[s.reader.caller].buffer.None?
    case Signal => s.reader.Signalling?
    case Lock => s.reader.Locking?
    case DrainSend(key) =>
      s.reader.Draining? && key in s.pending && s.pending[key] in s.callers && s.callers[s.pending[key]].buffer.None?
    case DrainDelete => s.reader.DrainSent?
    case DrainEnd => s.reader.Draining? && s.pending == map[]
    case CloseDone => s.reader.ClosingDone?
  }

  predicate CloserCan(s: State, step: Step)
    requires MovesCloser(step)
  {
    match step
    case Close(x) => x !in s.closers
    case CloseEnter(x) => CloserIn(s, x, Entering) && (s.closeOnce.None? || s.closeRan)
    case CloseSignal(x) => CloserIn(s, x, Signals)
    case CloseReader(x) => CloserIn(s, x, ClosesReader)
    case CloseReturn(x) => CloserIn(s, x, Awaits) && s.doneCloses > 0
  }

  /** Whether the action can happen now; a send waits for room in the channel, a critical section for the lock. */
  predicate Enabled(s: State, step: Step) {
    if MovesCaller(step) then CallerCan(s, step)
    else if MovesCloser(step) then CloserCan(s, step)
    else ReaderCan(s, step)
  }

  function WithPhase(s: State, c: nat, phase: Phase): State
    requires c in s.callers
  {
    s.(callers := s.callers[c := s.callers[c].(phase := phase)])
  }

  /** A send to a reply channel with room. */
  function Sent(s: State, c: nat, reply: Reply): State
    requires c in s.callers
  {
    s.(callers := s.callers[c := s.callers[c].(buffer := Some(reply), sends := s.callers[c].sends + 1)])
  }

  /** signalStop: only the first caller closes the stop channel. */
  function SignalStop(s: State): State {
    if s.stopOnce then s else s.(stopOnce := true, stopCloses := s.stopCloses + 1)
  }

  /** routeResponse up to the send: look the id up and take it out of the table. */
  function Routed(s: State, line: Line): State {
    if line.Response? && line.reply.id in s.pending
    then s.(pending := s.pending - {line.reply.id}, reader := Routing(s.pending[line.reply.id], line.reply))
    else s.(reader := Scanning)
  }

  function CloseEntered(s: State, x: nat): State {
    if s.closeOnce.None? then s.(closeOnce := Some(x), closers := s.closers[x := Signals])
    else s.(closers := s.closers[x := Awaits])
  }

  function CallerMoves(s: State, step: Step): State
    requires MovesCaller(step) && CallerCan(s, step)
  {
    match step
    case Begin(c) => s.(nextId := s.nextId + 1, callers := s.callers[c := Caller(s.nextId + 1, Counted, None, 0)])
    case Register(c) => WithPhase(s, c, Registered).(pending := s.pending[Numeral(s.callers[c].id) := c])
    case Write(c, ok) => WithPhase(s, c, if ok then Waiting else Leaving(WriteFailed))
    case Receive(c) =>
      s.(callers := s.callers[c := s.callers[c].(phase := Leaving(Got(s.callers[c].buffer.value)), buffer := None)])
    case Cancel(c) => WithPhase(s, c, Leaving(Cancelled))
    case SeeStop(c) => WithPhase(s, c, Leaving(TransportClosed))
    case Leave(c) =>
      WithPhase(s, c, Returned(s.callers[c].phase.outcome)).(pending := s.pending - {Numeral(s.callers[c].id)})
  }

  function ReaderMoves(s: State, step: Step): State
    requires !MovesCaller(step) && !MovesCloser(step) && ReaderCan(s, step)
  {
    match step
    case Start => s.(reader := Scanning)
    case ReadLine(found) => s.(reader := if Stopped(s) then Signalling else Dispatching(found))
    case Eof => s.(reader := Signalling)
    case Dispatch => Routed(s, s.reader.line)
    case Send => Sent(s, s.reader.caller, s.reader.reply).(reader := Scanning)
    case Signal => SignalStop(s).(reader := Locking)
    case Lock => s.(reader := Draining)
    case DrainSend(key) => Sent(s, s.pending[key], ClosedReply(key)).(reader := DrainSent(key))
    case DrainDelete => s.(pending := s.pending - {s.reader.key}, reader := Draining)
    case DrainEnd => s.(reader := ClosingDone)
    case CloseDone => s.(doneCloses := s.doneCloses + 1, reader := Exited)
  }

  function CloserMoves(s: State, step: Step): State
    requires MovesCloser(step) && CloserCan(s, step)
  {
    match step
    case Close(x) => s.(closers := s.closers[x := Entering])
    case CloseEnter(x) => CloseEntered(s, x)
    case CloseSignal(x) => SignalStop(s).(closers := s.closers[x := ClosesReader])
    case CloseReader(x) => s.(closeRan := true, closers := s.closers[x := Awaits])
    case CloseReturn(x) => s.(closers := s.closers[x := CloseReturned])
  }

  function Apply(s: State, step: Step): State
    requires Enabled(s, step)
  {
    if MovesCaller(step) then CallerMoves(s, step)
    else if MovesCloser(step) then CloserMoves(s, step)
    else ReaderMoves(s, step)
  }

  predicate Runs(s: State, steps: seq<Step>, t: State)
    decreases |steps|
  {
    if steps == [] then s == t
    else Enabled(s, steps[0]) && Runs(Apply(s, steps[0]), steps[1..], t)
  }

  // ---------------------------------------------------------------- the invariant

  /** The id of a caller as its request carries it. */
  function Key(x: Caller): string {
    Numeral(x.id)
  }

  predicate IdsDistinct(callers: map<nat, Caller>, nextId: nat) {
    && (forall c | c in callers :: callers[c].id <= nextId)
    && (forall c, d | c in callers && d in callers && callers[c].id == callers[d].id :: c == d)
  }

  predicate OutcomeFits(x: Caller, outcome: Outcome) {
    outcome.Got? ==> outcome.reply.id == Key(x) && x.sends == 1 && x.buffer.None?
  }

  /** A channel is sent to at most once, with a reply to its own request. */
  predicate CallerFits(x: Caller) {
    && x.sends <= 1
    && (x.sends == 0 ==> x.buffer.None?)
    && (x.buffer.Some? ==> x.buffer.value.id == Key(x))
    && (x.phase.Counted? ==> x.sends == 0)
    && (x.phase.Leaving? ==> OutcomeFits(x, x.phase.outcome))
    && (x.phase.Returned? ==> OutcomeFits(x, x.phase.result))
  }

  predicate CallersFit(callers: map<nat, Caller>) {
    forall c | c in callers :: CallerFits(callers[c])
  }

  predicate InTable(phase: Phase) {
    phase.Registered? || phase.Waiting? || phase.Leaving?
  }

  /** A table entry is of a Request under way that was not sent to, except for the one being drained. */
  predicate PendingFits(callers: map<nat, Caller>, pending: map<string, nat>, reader: Reader) {
    forall k | k in pending ::
      && pending[k] in callers
      && k == Key(callers[pending[k]])
      && InTable(callers[pending[k]].phase)
      && (callers[pending[k]].sends == 0 || reader == DrainSent(k))
  }

  predicate ReaderFits(callers: map<nat, Caller>, pending: map<string, nat>, reader: Reader) {
    match reader
    case Routing(c, reply) =>
      c in callers && reply.id == Key(callers[c]) && callers[c].sends == 0 && reply.id !in pending
      && !callers[c].phase.Counted?
    case DrainSent(k) => k in pending && pending[k] in callers && callers[pending[k]].sends == 1
    case _ => true
  }

  predicate ChannelsFit(s: State) {
    && s.stopCloses == (if s.stopOnce then 1 else 0)
    && s.doneCloses == (if s.reader.Exited? then 1 else 0)
    && (s.reader.Locking? || Locked(s) || s.reader.ClosingDone? || s.reader.Exited? ==> s.stopOnce)
  }

  ghost predicate Inv(s: State) {
    && IdsDistinct(s.callers, s.nextId) && CallersFit(s.callers)
    && PendingFits(s.callers, s.pending, s.reader) && ReaderFits(s.callers, s.pending, s.reader)
    && ChannelsFit(s)
  }

  // ---------------------------------------------------------------- every step keeps it

  lemma KeysDistinct(s: State, c: nat, d: nat)
    requires IdsDistinct(s.callers, s.nextId) && c in s.callers && d in s.callers && Key(s.callers[c]) == Key(s.callers[d])
    ensures c == d
  {
    NumeralInjective(s.callers[c].id, s.callers[d].id);
  }

  lemma IdsKept(callers: map<nat, Caller>, nextId: nat, c: nat, x: Caller)
    requires IdsDistinct(callers, nextId) && c in callers && x.id == callers[c].id
    ensures IdsDistinct(callers[c := x], nextId)
  {
  }

  lemma FitsKept(callers: map<nat, Caller>, c: nat, x: Caller)
    requires CallersFit(callers) && CallerFits(x)
    ensures CallersFit(callers[c := x])
  {
    hide CallerFits;
  }

  /** Replacing one caller record: its id stays, and it stays in the table if it is there. */
  lemma CallerReplaced(s: State, c: nat, x: Caller)
    requires Inv(s) && c in s.callers && x.id == s.callers[c].id && CallerFits(x)
    requires x.sends == s.callers[c].sends
    requires x.phase.Counted? ==> s.callers[c].phase.Counted?
    requires InTable(s.callers[c].phase) ==> InTable(x.phase)
    ensures Inv(s.(callers := s.callers[c := x]))
  {
    hide CallerFits, Numeral, IdsDistinct, CallersFit;
    IdsKept(s.callers, s.nextId, c, x);
    FitsKept(s.callers, c, x);
  }

  lemma BeginKeeps(s: State, c: nat)
    requires Inv(s)
    requires Enabled(s, Begin(c))
    ensures Inv(Apply(s, Begin(c)))
  {
    hide Numeral;
  }

  /** The key of a Request that has not registered yet is not in the table. */
  lemma KeyIsNew(s: State, c: nat)
    requires Inv(s) && c in s.callers && s.callers[c].phase.Counted?
    ensures Key(s.callers[c]) !in s.pending
    ensures s.reader.Routing? ==> s.reader.reply.id != Key(s.callers[c])
  {
    var k := Key(s.callers[c]);
    if k in s.pending {
      KeysDistinct(s, c, s.pending[k]);
    }
    if s.reader.Routing? && s.reader.reply.id == k {
      KeysDistinct(s, c, s.reader.caller);
    }
    hide IdsDistinct, Numeral;
  }

  lemma RegisterKeeps(s: State, c: nat)
    requires Inv(s)
    requires Enabled(s, Register(c))
    ensures Inv(Apply(s, Register(c)))
  {
    hide Numeral, IdsDistinct, CallersFit;
    KeyIsNew(s, c);
    var x := s.callers[c].(phase := Registered);
    assert CallerFits(s.callers[c]) && x.sends == 0 by {
      FitsOne(s.callers, c);
    }
    assert CallerFits(x);
    IdsKept(s.callers, s.nextId, c, x);
    FitsKept(s.callers, c, x);
    hide CallerFits, OutcomeFits;
    PendingAdds(s.callers, s.pending, s.reader, c, x);
    hide PendingFits;
  }

  lemma PendingAdds(callers: map<nat, Caller>, pending: map<string, nat>, reader: Reader, c: nat, x: Caller)
    requires PendingFits(callers, pending, reader) && c in callers && callers[c].phase.Counted?
    requires x.sends == 0 && InTable(x.phase) && Key(x) !in pending
    ensures PendingFits(callers[c := x], pending[Key(x) := c], reader)
  {
    hide Numeral;
  }

  lemma FitsOne(callers: map<nat, Caller>, c: nat)
    requires CallersFit(callers) && c in callers
    ensures CallerFits(callers[c])
  {
    hide CallerFits;
  }

  lemma LeaveKeeps(s: State, c: nat)
    requires Inv(s)
    requires Enabled(s, Leave(c))
    ensures Inv(Apply(s, Leave(c)))
  {
    hide Numeral, IdsDistinct, CallersFit;
    FitsOne(s.callers, c);
    var x := s.callers[c].(phase := Returned(s.callers[c].phase.outcome));
    CallerLeaves(s.callers[c]);
    IdsKept(s.callers, s.nextId, c, x);
    FitsKept(s.callers, c, x);
    hide CallerFits, OutcomeFits;
    PendingDrops(s.callers, s.pending, s.reader, c, x);
    hide PendingFits;
  }

  lemma CallerLeaves(x: Caller)
    requires CallerFits(x) && x.phase.Leaving?
    ensures CallerFits(x.(phase := Returned(x.phase.outcome)))
  {
    hide Numeral;
  }

  lemma PendingDrops(callers: map<nat, Caller>, pending: map<string, nat>, reader: Reader, c: nat, x: Caller)
    requires PendingFits(callers, pending, reader) && c in callers
    ensures PendingFits(callers[c := x], pending - {Key(callers[c])}, reader)
  {
    hide Numeral;
    forall k | k in pending && pending[k] == c ensures k == Key(callers[c]) {
    }
  }

  lemma DispatchKeeps(s: State)
    requires Inv(s)
    requires Enabled(s, Dispatch)
    ensures Inv(Apply(s, Dispatch))
  {
    hide Numeral, CallersFit, IdsDistinct;
    var line := s.reader.line;
    if line.Response? && line.reply.id in s.pending {
      var k, reader := line.reply.id, Routing(s.pending[line.reply.id], line.reply);
      assert k == Key(s.callers[s.pending[k]]);
      PendingShrinks(s.callers, s.pending, s.reader, k, reader);
      hide PendingFits;
    }
  }

  lemma PendingShrinks(callers: map<nat, Caller>, pending: map<string, nat>, reader: Reader, k: string, reader': Reader)
    requires PendingFits(callers, pending, reader) && (reader.DrainSent? ==> reader.key == k)
    ensures PendingFits(callers, pending - {k}, reader')
  {
    hide Numeral, InTable;
  }

  /** A channel not sent to yet takes a reply with its own id. */
  lemma CallerSent(x: Caller, reply: Reply)
    requires CallerFits(x) && x.sends == 0 && !x.phase.Counted? && reply.id == Key(x)
    ensures CallerFits(x.(buffer := Some(reply), sends := 1))
  {
    hide Numeral;
  }

  lemma SendKeeps(s: State)
    requires Inv(s)
    requires Enabled(s, Send)
    ensures Inv(Apply(s, Send))
  {
    hide Numeral, IdsDistinct, CallersFit;
    var c := s.reader.caller;
    FitsOne(s.callers, c);
    CallerSent(s.callers[c], s.reader.reply);
    hide CallerFits;
    var x := s.callers[c].(buffer := Some(s.reader.reply), sends := 1);
    IdsKept(s.callers, s.nextId, c, x);
    FitsKept(s.callers, c, x);
    forall k | k in s.pending ensures s.pending[k] != c {
    }
  }

  lemma DrainSendKeeps(s: State, k: string)
    requires Inv(s)
    requires Enabled(s, DrainSend(k))
    ensures Inv(Apply(s, DrainSend(k)))
  {
    hide Numeral, IdsDistinct, CallersFit;
    var c, reply := s.pending[k], Reply(k, "mcp: transport closed");
    FitsOne(s.callers, c);
    CallerSent(s.callers[c], reply);
    hide CallerFits;
    var x := s.callers[c].(buffer := Some(reply), sends := 1);
    IdsKept(s.callers, s.nextId, c, x);
    FitsKept(s.callers, c, x);
    forall j | j in s.pending && s.pending[j] == c ensures j == k {
    }
  }

  lemma DrainDeleteKeeps(s: State)
    requires Inv(s)
    requires Enabled(s, DrainDelete)
    ensures Inv(Apply(s, DrainDelete))
  {
    hide Numeral, CallersFit, IdsDistinct;
    PendingShrinks(s.callers, s.pending, s.reader, s.reader.key, Draining);
    hide PendingFits;
  }

  lemma CallerStepKeeps(s: State, step: Step)
    requires Inv(s) && Enabled(s, step)
    requires step.Write? || step.Receive? || step.Cancel? || step.SeeStop?
    ensures Inv(Apply(s, step))
  {
    hide IdsDistinct, PendingFits, ReaderFits, ChannelsFit, Numeral;
    CallerReplaced(s, step.c, Apply(s, step).callers[step.c]);
    assert Apply(s, step) == s.(callers := s.callers[step.c := Apply(s, step).callers[step.c]]);
  }

  lemma StepKeeps(s: State, step: Step)
    requires Inv(s) && Enabled(s, step)
    ensures Inv(Apply(s, step))
  {
    match step
    case Begin(c) => BeginKeeps(s, c);
    case Register(c) => RegisterKeeps(s, c);
    case Write(_, _) => CallerStepKeeps(s, step);
    case Receive(_) => CallerStepKeeps(s, step);
    case Cancel(_) => CallerStepKeeps(s, step);
    case SeeStop(_) => CallerStepKeeps(s, step);
    case Leave(c) => LeaveKeeps(s, c);
    case Dispatch => DispatchKeeps(s);
    case Send => SendKeeps(s);
    case DrainSend(k) => DrainSendKeeps(s, k);
    case DrainDelete => DrainDeleteKeeps(s);
    case _ =>
      if MovesCloser(step) {
        CloserStepKeeps(s, step);
      } else {
        OtherStepKeeps(s, step);
      }
  }

  lemma OtherStepKeeps(s: State, step: Step)
    requires Inv(s) && Enabled(s, step)
    requires step.Start? || step.ReadLine? || step.Eof? || step.Signal? || step.Lock? || step.DrainEnd? || step.CloseDone?
    ensures Inv(Apply(s, step))
  {
    hide IdsDistinct, CallersFit, PendingFits, ChannelsFit, Numeral, CallerCan, CallerMoves, CloserCan, CloserMoves;
    ChannelsKept(s, step);
    var t := Apply(s, step);
    assert t.callers == s.callers && t.nextId == s.nextId && t.pending == s.pending;
    ReaderGoesOn(s.callers, s.pending, s.reader, t.reader);
  }

  lemma ChannelsKept(s: State, step: Step)
    requires ChannelsFit(s) && Enabled(s, step) && !MovesCaller(step) && !MovesCloser(step)
    ensures ChannelsFit(Apply(s, step))
  {
    hide Numeral, CallerCan, CallerMoves, CloserCan, CloserMoves;
  }

  lemma CloserStepKeeps(s: State, step: Step)
    requires Inv(s) && Enabled(s, step) && MovesCloser(step)
    ensures Inv(Apply(s, step))
  {
    CloserFrame(s, step);
    hide IdsDistinct, CallersFit, PendingFits, ReaderFits, Apply, Enabled;
  }

  /** A Close changes only the stop flags and the closers. */
  lemma CloserFrame(s: State, step: Step)
    requires Enabled(s, step) && MovesCloser(step)
    ensures var t := Apply(s, step);
            && t.callers == s.callers && t.pending == s.pending && t.reader == s.reader && t.nextId == s.nextId
            && t.doneCloses == s.doneCloses && (t == s.(closers := t.closers, closeOnce := t.closeOnce, closeRan := t.closeRan)
                || t == SignalStop(s).(closers := t.closers))
  {
    hide CallerCan, CallerMoves, ReaderCan, ReaderMoves;
  }

  /** A Request changes only its record, the table and the id counter. */
  lemma CallerFrame(s: State, step: Step)
    requires Enabled(s, step) && MovesCaller(step)
    ensures var t := Apply(s, step);
            && t == s.(callers := t.callers, pending := t.pending, nextId := t.nextId)
            && (Locked(s) ==> t.pending == s.pending)
  {
    hide CloserCan, CloserMoves, ReaderCan, ReaderMoves, Numeral;
  }

  lemma ReaderGoesOn(callers: map<nat, Caller>, pending: map<string, nat>, reader: Reader, reader': Reader)
    requires PendingFits(callers, pending, reader)
    ensures reader' == reader || !reader.DrainSent? ==> PendingFits(callers, pending, reader')
  {
    hide Numeral;
  }

  /** Every state of every interleaving of Requests, lines, cancellations, the drain and Close. */
  lemma {:induction false} RunKeeps(s: State, steps: seq<Step>, t: State)
    requires Inv(s) && Runs(s, steps, t)
    ensures Inv(t)
    decreases |steps|
  {
    hide Inv, Enabled, Apply;
    if steps != [] {
      StepKeeps(s, steps[0]);
      RunKeeps(Apply(s, steps[0]), steps[1..], t);
    }
  }

  lemma InitialHolds()
    ensures Inv(INITIAL)
  {
  }

  ghost predicate Reachable(s: State) {
    exists steps :: Runs(INITIAL, steps, s)
  }

  lemma ReachableHolds(s: State)
    requires Reachable(s)
    ensures Inv(s)
  {
    var steps :| Runs(INITIAL, steps, s);
    InitialHolds();
    RunKeeps(INITIAL, steps, s);
  }

  // ---------------------------------------------------------------- safety

  /**
   * No reply channel is ever sent to twice, so the send in routeResponse and every send of the drain, which
   * holds the lock, find room; and what a caller gets carries its own id.
   */
  lemma RepliesAreOwnAndSendsNeverBlock(s: State)
    requires Reachable(s)
    ensures forall c | c in s.callers :: s.callers[c].sends <= 1
    ensures forall c | c in s.callers && s.callers[c].phase.Returned? && s.callers[c].phase.result.Got? ::
              s.callers[c].phase.result.reply.id == Numeral(s.callers[c].id)
    ensures s.reader.Routing? ==> Enabled(s, Send)
    ensures s.reader.Draining? ==> forall k | k in s.pending :: Enabled(s, DrainSend(k))
  {
    ReachableHolds(s);
    hide IdsDistinct, ChannelsFit, Reachable, Numeral;
  }

  /** Ids are never shared, so nobody gets the reply to another's request. */
  lemma RepliesGoToOneCaller(s: State, c: nat, d: nat)
    requires Reachable(s) && c in s.callers && d in s.callers
    requires s.callers[c].phase.Returned? && s.callers[c].phase.result.Got?
    requires s.callers[d].phase.Returned? && s.callers[d].phase.result.Got?
    requires s.callers[c].phase.result.reply.id == s.callers[d].phase.result.reply.id
    ensures c == d
  {
    ReachableHolds(s);
    KeysDistinct(s, c, d);
  }

  /** The two channels are closed at most once each, the done channel only after the stop channel. */
  lemma ClosesAreOnce(s: State)
    requires Reachable(s)
    ensures s.stopCloses <= 1 && s.doneCloses <= 1 && (s.doneCloses == 1 ==> s.stopCloses == 1)
  {
    ReachableHolds(s);
  }

  /** Once every Request has returned, the table is empty. */
  lemma TableEmptiesOut(s: State)
    requires Reachable(s) && forall c | c in s.callers :: s.callers[c].phase.Returned?
    ensures s.pending == map[]
  {
    ReachableHolds(s);
    hide IdsDistinct, CallersFit, ChannelsFit, ReaderFits, Reachable, Numeral;
  }

  /** The response that the drain makes up. */
  function ClosedReply(key: string): Reply {
    Reply(key, "mcp: transport closed")
  }

  /** A Request that was told the transport is closed. */
  predicate ToldClosed(x: Caller) {
    (x.phase.Leaving? && x.phase.outcome.TransportClosed?) || (x.phase.Returned? && x.phase.result.TransportClosed?)
  }

  predicate ClosedOnlyWhenStopped(s: State) {
    forall c | c in s.callers && ToldClosed(s.callers[c]) :: Stopped(s)
  }

  /** No Request is told that the transport is closed unless it was stopped. */
  lemma {:induction false} ClosedNeedsStop(s: State, steps: seq<Step>, t: State)
    requires ClosedOnlyWhenStopped(s) && Runs(s, steps, t)
    ensures ClosedOnlyWhenStopped(t)
    decreases |steps|
  {
    if steps != [] {
      TellsOnlyWhenStopped(s, steps[0]);
      hide Apply, Enabled, ClosedOnlyWhenStopped;
      ClosedNeedsStop(Apply(s, steps[0]), steps[1..], t);
    }
  }

  lemma TellsOnlyWhenStopped(s: State, step: Step)
    requires ClosedOnlyWhenStopped(s) && Enabled(s, step)
    ensures ClosedOnlyWhenStopped(Apply(s, step))
  {
    StoppingIsFinal(s, step);
    hide Numeral, ClosedOnlyWhenStopped, Stopped;
    var t := Apply(s, step);
    forall c | c in t.callers && ToldClosed(t.callers[c]) ensures Stopped(t) {
      NewlyTold(s, step, c);
      AlreadyTold(s, c);
    }
    AllTold(t);
  }

  lemma NewlyTold(s: State, step: Step, c: nat)
    requires Enabled(s, step) && c in Apply(s, step).callers && ToldClosed(Apply(s, step).callers[c])
    ensures Stopped(s) || (c in s.callers && ToldClosed(s.callers[c]))
  {
    hide Numeral;
    if MovesCaller(step) {
      hide CloserCan, CloserMoves, ReaderCan, ReaderMoves;
    } else {
      SendKeepsRank(s, step, c);
      hide Apply, Enabled;
    }
  }

  lemma AlreadyTold(s: State, c: nat)
    requires ClosedOnlyWhenStopped(s)
    ensures c in s.callers && ToldClosed(s.callers[c]) ==> Stopped(s)
  {
  }

  lemma AllTold(s: State)
    requires forall c | c in s.callers && ToldClosed(s.callers[c]) :: Stopped(s)
    ensures ClosedOnlyWhenStopped(s)
  {
  }

  /** Without Start nobody ever returns from Close. */
  lemma {:induction false} CloseNeedsStart(s: State, steps: seq<Step>, t: State)
    requires Runs(s, steps, t) && Start !in steps
    requires s.reader.NotStarted? && s.doneCloses == 0 && CloseReturned !in s.closers.Values
    ensures t.doneCloses == 0 && CloseReturned !in t.closers.Values
    decreases |steps|
  {
    if steps != [] {
      NoReturnWithoutStart(s, steps[0]);
      hide Apply, Enabled;
      CloseNeedsStart(Apply(s, steps[0]), steps[1..], t);
    }
  }

  lemma NoReturnWithoutStart(s: State, step: Step)
    requires Enabled(s, step) && !step.Start?
    requires s.reader.NotStarted? && s.doneCloses == 0 && CloseReturned !in s.closers.Values
    ensures var t := Apply(s, step); t.reader.NotStarted? && t.doneCloses == 0 && CloseReturned !in t.closers.Values
  {
    hide Numeral;
    var t := Apply(s, step);
    forall x | x in t.closers ensures t.closers[x] != CloseReturned {
      if x in s.closers {
        assert s.closers[x] in s.closers.Values;
      }
    }
  }

  // ---------------------------------------------------------------- answers

  /** A Request that was not sent to is in the table under its id, or its response is on its way to its channel. */
  predicate Answerable(callers: map<nat, Caller>, pending: map<string, nat>, reader: Reader) {
    forall c | c in callers && InTable(callers[c].phase) && callers[c].sends == 0 ::
      || (Key(callers[c]) in pending && pending[Key(callers[c])] == c)
      || (reader.Routing? && reader.caller == c)
  }

  lemma CallerKeepsAnswerable(s: State, step: Step)
    requires Inv(s) && Answerable(s.callers, s.pending, s.reader) && Enabled(s, step) && MovesCaller(step)
    ensures var t := Apply(s, step); Answerable(t.callers, t.pending, t.reader)
  {
    hide CloserCan, CloserMoves, ReaderCan, ReaderMoves, ChannelsFit, ReaderFits;
    var t := Apply(s, step);
    forall c | c in t.callers && InTable(t.callers[c].phase) && t.callers[c].sends == 0
      ensures (Key(t.callers[c]) in t.pending && t.pending[Key(t.callers[c])] == c) || (t.reader.Routing? && t.reader.caller == c)
    {
      if (step.Register? || step.Leave?) && step.c != c && Key(s.callers[c]) == Key(s.callers[step.c]) {
        KeysDistinct(s, c, step.c);
      }
      hide Numeral;
    }
  }

  lemma ReaderKeepsAnswerable(s: State, step: Step)
    requires Inv(s) && Answerable(s.callers, s.pending, s.reader) && Enabled(s, step) && !MovesCaller(step) && !MovesCloser(step)
    ensures var t := Apply(s, step); Answerable(t.callers, t.pending, t.reader)
  {
    hide CallerCan, CallerMoves, CloserCan, CloserMoves, ChannelsFit, IdsDistinct, CallersFit, Numeral;
    var t := Apply(s, step);
    forall c | c in t.callers && InTable(t.callers[c].phase) && t.callers[c].sends == 0
      ensures (Key(t.callers[c]) in t.pending && t.pending[Key(t.callers[c])] == c) || (t.reader.Routing? && t.reader.caller == c)
    {
      assert c in s.callers && s.callers[c].sends == 0 && s.callers[c].phase == t.callers[c].phase && Key(s.callers[c]) == Key(t.callers[c]);
    }
  }

  lemma StepKeepsAnswerable(s: State, step: Step)
    requires Inv(s) && Answerable(s.callers, s.pending, s.reader) && Enabled(s, step)
    ensures var t := Apply(s, step); Answerable(t.callers, t.pending, t.reader)
  {
    hide Inv, Answerable;
    if MovesCaller(step) {
      CallerKeepsAnswerable(s, step);
    } else if MovesCloser(step) {
      CloserFrame(s, step);
    } else {
      ReaderKeepsAnswerable(s, step);
    }
    hide Apply, Enabled;
  }

  lemma {:induction false} RunKeepsAnswerable(s: State, steps: seq<Step>, t: State)
    requires Inv(s) && Answerable(s.callers, s.pending, s.reader) && Runs(s, steps, t)
    ensures Answerable(t.callers, t.pending, t.reader)
    decreases |steps|
  {
    hide Inv, Answerable, Enabled, Apply;
    if steps != [] {
      StepKeepsAnswerable(s, steps[0]);
      StepKeeps(s, steps[0]);
      RunKeepsAnswerable(Apply(s, steps[0]), steps[1..], t);
    }
  }

  /** In every reachable state a waiting Request without an answer is in the table, unless its answer is being routed. */
  lemma WaitingIsPending(s: State, c: nat)
    requires Reachable(s) && c in s.callers && s.callers[c].phase.Waiting? && s.callers[c].sends == 0 && !s.reader.Routing?
    ensures Numeral(s.callers[c].id) in s.pending && s.pending[Numeral(s.callers[c].id)] == c && s.callers[c].buffer.None?
  {
    ReachableHolds(s);
    var steps :| Runs(INITIAL, steps, s);
    InitialHolds();
    RunKeepsAnswerable(INITIAL, steps, s);
    hide Runs, PendingFits, IdsDistinct, ReaderFits, ChannelsFit, Numeral;
  }

  /**
   * From every reachable state in which the read loop scans a transport that was not stopped, a response that
   * carries the id of a waiting Request is read, routed, received and returned by that Request, body and all;
   * nobody else is touched and the loop scans on.
   */
  lemma AnswerArrives(s: State, c: nat, body: string) returns (t: State)
    requires Reachable(s) && s.reader.Scanning? && !Stopped(s)
    requires c in s.callers && s.callers[c].phase.Waiting? && s.callers[c].sends == 0
    ensures var reply := Reply(Numeral(s.callers[c].id), body);
            && Runs(s, [ReadLine(Response(reply)), Dispatch, Send, Receive(c), Leave(c)], t)
            && c in t.callers && t.callers[c].phase == Returned(Got(reply))
            && t.callers.Keys == s.callers.Keys && (forall d | d in s.callers && d != c :: t.callers[d] == s.callers[d])
            && t.pending == s.pending - {reply.id} && t.reader.Scanning?
  {
    hide *;
    WaitingIsPending(s, c);
    var reply := Reply(Numeral(s.callers[c].id), body);
    var s1 := s.(reader := Dispatching(Response(reply)));
    var s2 := s.(pending := s.pending - {reply.id}, reader := Routing(c, reply));
    var x := s.callers[c];
    var s3 := s2.(callers := s.callers[c := x.(buffer := Some(reply), sends := 1)], reader := Scanning);
    var s4 := s3.(callers := s.callers[c := x.(phase := Leaving(Got(reply)), sends := 1)]);
    t := s4.(callers := s.callers[c := x.(phase := Returned(Got(reply)), sends := 1)]);
    ReadsAnswer(s, s1, s2, s3, c, reply);
    ReturnsAnswer(s, s3, s4, t, c, reply);
    RunsNone(t);
    RunsCons(s4, Leave(c), [], t);
    RunsCons(s3, Receive(c), [Leave(c)] + [], t);
    RunsCons(s2, Send, [Receive(c)] + ([Leave(c)] + []), t);
    RunsCons(s1, Dispatch, [Send] + ([Receive(c)] + ([Leave(c)] + [])), t);
    RunsCons(s, ReadLine(Response(reply)), [Dispatch] + ([Send] + ([Receive(c)] + ([Leave(c)] + []))), t);
    assert [ReadLine(Response(reply))] + ([Dispatch] + ([Send] + ([Receive(c)] + ([Leave(c)] + []))))
           == [ReadLine(Response(reply)), Dispatch, Send, Receive(c), Leave(c)];
  }

  lemma ReadsAnswer(s: State, s1: State, s2: State, s3: State, c: nat, reply: Reply)
    requires s.reader.Scanning? && !Stopped(s) && c in s.callers && s.callers[c].sends == 0 && s.callers[c].buffer.None?
    requires reply.id in s.pending && s.pending[reply.id] == c
    requires s1 == s.(reader := Dispatching(Response(reply)))
    requires s2 == s.(pending := s.pending - {reply.id}, reader := Routing(c, reply))
    requires s3 == s2.(callers := s.callers[c := s.callers[c].(buffer := Some(reply), sends := 1)], reader := Scanning)
    ensures Enabled(s, ReadLine(Response(reply))) && Apply(s, ReadLine(Response(reply))) == s1
    ensures Enabled(s1, Dispatch) && Apply(s1, Dispatch) == s2
    ensures Enabled(s2, Send) && Apply(s2, Send) == s3
  {
    LineRead(s, s1, reply);
    LineRouted(s1, s2, c, reply);
    ReplySent(s2, s3, c, reply);
    hide Apply, Enabled;
  }

  lemma LineRead(s: State, s1: State, reply: Reply)
    requires s.reader.Scanning? && !Stopped(s) && s1 == s.(reader := Dispatching(Response(reply)))
    ensures Enabled(s, ReadLine(Response(reply))) && Apply(s, ReadLine(Response(reply))) == s1
  {
  }

  lemma LineRouted(s1: State, s2: State, c: nat, reply: Reply)
    requires s1.reader == Dispatching(Response(reply)) && reply.id in s1.pending && s1.pending[reply.id] == c
    requires s2 == s1.(pending := s1.pending - {reply.id}, reader := Routing(c, reply))
    ensures Enabled(s1, Dispatch) && Apply(s1, Dispatch) == s2
  {
  }

  lemma ReplySent(s2: State, s3: State, c: nat, reply: Reply)
    requires s2.reader == Routing(c, reply) && c in s2.callers && s2.callers[c].sends == 0 && s2.callers[c].buffer.None?
    requires s3 == s2.(callers := s2.callers[c := s2.callers[c].(buffer := Some(reply), sends := 1)], reader := Scanning)
    ensures Enabled(s2, Send) && Apply(s2, Send) == s3
  {
  }

  lemma ReturnsAnswer(s: State, s3: State, s4: State, t: State, c: nat, reply: Reply)
    requires c in s.callers && s.callers[c].phase.Waiting? && s.callers[c].buffer.None? && reply.id == Numeral(s.callers[c].id)
    requires s3 == s.(pending := s.pending - {reply.id}, reader := Scanning,
                      callers := s.callers[c := s.callers[c].(buffer := Some(reply), sends := 1)])
    requires s4 == s3.(callers := s.callers[c := s.callers[c].(phase := Leaving(Got(reply)), sends := 1)])
    requires t == s4.(callers := s.callers[c := s.callers[c].(phase := Returned(Got(reply)), sends := 1)])
    ensures Enabled(s3, Receive(c)) && Apply(s3, Receive(c)) == s4
    ensures Enabled(s4, Leave(c)) && Apply(s4, Leave(c)) == t
  {
    hide Numeral;
    assert s3.callers[c := s4.callers[c]] == s4.callers && s4.callers[c := t.callers[c]] == t.callers;
    assert s4.pending - {reply.id} == s4.pending;
  }

  /** So a new Request on a running transport is written under the next number, and returns the answer to that number. */
  lemma RequestIsAnswered(s: State, c: nat, body: string) returns (t: State)
    requires Reachable(s) && s.reader.Scanning? && !Stopped(s) && c !in s.callers
    ensures var reply := Reply(Numeral(s.nextId + 1), body);
            && Runs(s, [Begin(c), Register(c), Write(c, true), ReadLine(Response(reply)), Dispatch, Send, Receive(c), Leave(c)], t)
            && c in t.callers && t.callers[c].phase == Returned(Got(reply))
            && (forall d | d in s.callers :: d in t.callers && t.callers[d] == s.callers[d])
  {
    hide *;
    var reply := Reply(Numeral(s.nextId + 1), body);
    var s1, s2, s3 := RequestWritten(s, c);
    StepReaches(s, Begin(c));
    StepReaches(s1, Register(c));
    StepReaches(s2, Write(c, true));
    t := AnswerArrives(s3, c, body);
    var rest := [ReadLine(Response(reply)), Dispatch, Send, Receive(c), Leave(c)];
    RunsCons(s2, Write(c, true), rest, t);
    RunsCons(s1, Register(c), [Write(c, true)] + rest, t);
    RunsCons(s, Begin(c), [Register(c)] + ([Write(c, true)] + rest), t);
    assert [Begin(c)] + ([Register(c)] + ([Write(c, true)] + rest))
           == [Begin(c), Register(c), Write(c, true), ReadLine(Response(reply)), Dispatch, Send, Receive(c), Leave(c)];
  }

  lemma RequestWritten(s: State, c: nat) returns (s1: State, s2: State, s3: State)
    requires s.reader.Scanning? && !Stopped(s) && c !in s.callers
    ensures Enabled(s, Begin(c)) && s1 == Apply(s, Begin(c))
    ensures Enabled(s1, Register(c)) && s2 == Apply(s1, Register(c))
    ensures Enabled(s2, Write(c, true)) && s3 == Apply(s2, Write(c, true))
    ensures s3.reader.Scanning? && !Stopped(s3) && s3.callers == s.callers[c := Caller(s.nextId + 1, Waiting, None, 0)]
  {
    hide Numeral;
    s1 := Apply(s, Begin(c));
    s2 := Apply(s1, Register(c));
    s3 := Apply(s2, Write(c, true));
    assert s1.callers[c].id == s.nextId + 1;
  }

  /** A response whose id no Request in the table has is dropped: reading and dispatching it changes nothing. */
  lemma StrayAnswerIsDropped(s: State, reply: Reply)
    requires Reachable(s) && s.reader.Scanning? && !Stopped(s) && reply.id !in s.pending
    ensures Runs(s, [ReadLine(Response(reply)), Dispatch], s)
  {
    hide Reachable, Runs;
    var s1 := s.(reader := Dispatching(Response(reply)));
    assert Apply(s, ReadLine(Response(reply))) == s1 && Enabled(s1, Dispatch) && Apply(s1, Dispatch) == s;
    RunsNone(s);
    RunsCons(s1, Dispatch, [], s);
    RunsCons(s, ReadLine(Response(reply)), [Dispatch] + [], s);
    assert [ReadLine(Response(reply))] + ([Dispatch] + []) == [ReadLine(Response(reply)), Dispatch];
  }

  /** The response was read by one of the steps, or made up by a drain. */
  predicate Sourced(read: seq<Step>, reply: Reply) {
    ReadLine(Response(reply)) in read || (DrainSend(reply.id) in read && reply.body == "mcp: transport closed")
  }

  /** The outcome was brought about by one of the steps. */
  predicate Explained(read: seq<Step>, c: nat, outcome: Outcome) {
    match outcome
    case Got(reply) => Sourced(read, reply) && Receive(c) in read
    case WriteFailed => Write(c, false) in read
    case Cancelled => Cancel(c) in read
    case TransportClosed => SeeStop(c) in read
  }

  predicate AllSourced(s: State, read: seq<Step>) {
    && (forall c | c in s.callers ::
         && (s.callers[c].buffer.Some? ==> Sourced(read, s.callers[c].buffer.value))
         && (s.callers[c].phase.Leaving? ==> Explained(read, c, s.callers[c].phase.outcome))
         && (s.callers[c].phase.Returned? ==> Explained(read, c, s.callers[c].phase.result)))
    && (s.reader.Dispatching? && s.reader.line.Response? ==> ReadLine(s.reader.line) in read)
    && (s.reader.Routing? ==> Sourced(read, s.reader.reply))
  }

  lemma MoreSourced(s: State, read: seq<Step>, step: Step)
    requires AllSourced(s, read)
    ensures AllSourced(s, read + [step])
  {
    forall reply | Sourced(read, reply) ensures Sourced(read + [step], reply) {
    }
  }

  lemma CallerSourced(s: State, read: seq<Step>, step: Step)
    requires AllSourced(s, read) && step in read && Enabled(s, step) && MovesCaller(step)
    ensures AllSourced(Apply(s, step), read)
  {
    hide CloserCan, CloserMoves, ReaderCan, ReaderMoves, Numeral, Sourced;
  }

  lemma ReaderSourced(s: State, read: seq<Step>, step: Step)
    requires AllSourced(s, read) && step in read && Enabled(s, step) && !MovesCaller(step) && !MovesCloser(step)
    ensures AllSourced(Apply(s, step), read)
  {
    hide CloserCan, CloserMoves, CallerCan, CallerMoves, Numeral, Explained;
  }

  lemma {:induction false} RunSourced(s: State, read: seq<Step>, steps: seq<Step>, t: State)
    requires AllSourced(s, read) && Runs(s, steps, t)
    ensures AllSourced(t, read + steps)
    decreases |steps|
  {
    if steps == [] {
      assert read + steps == read;
    } else {
      var more := read + [steps[0]];
      MoreSourced(s, read, steps[0]);
      hide AllSourced;
      if MovesCaller(steps[0]) {
        CallerSourced(s, more, steps[0]);
      } else if MovesCloser(steps[0]) {
        CloserSourced(s, more, steps[0]);
      } else {
        ReaderSourced(s, more, steps[0]);
      }
      hide Enabled, Apply;
      RunSourced(Apply(s, steps[0]), more, steps[1..], t);
      assert more + steps[1..] == read + steps;
    }
  }

  lemma CloserSourced(s: State, read: seq<Step>, step: Step)
    requires AllSourced(s, read) && Enabled(s, step) && MovesCloser(step)
    ensures AllSourced(Apply(s, step), read)
  {
    CloserFrame(s, step);
    hide Apply, Enabled, Sourced, Explained;
  }

  /**
   * In every run a Request returns a response only if it received it and a line of the run held that response,
   * body included, or a drain made it up; and another outcome only if its write failed, it was cancelled, or it
   * saw the transport stop.
   */
  lemma OutcomesAreExplained(steps: seq<Step>, t: State, c: nat)
    requires Runs(INITIAL, steps, t) && c in t.callers && t.callers[c].phase.Returned?
    ensures match t.callers[c].phase.result
            case Got(reply) =>
              && Receive(c) in steps
              && (ReadLine(Response(reply)) in steps
                  || (DrainSend(reply.id) in steps && reply.body == "mcp: transport closed"))
            case WriteFailed => Write(c, false) in steps
            case Cancelled => Cancel(c) in steps
            case TransportClosed => SeeStop(c) in steps
  {
    assert AllSourced(INITIAL, []);
    RunSourced(INITIAL, [], steps, t);
    assert [] + steps == steps;
    hide Runs;
  }

  // ---------------------------------------------------------------- shutdown

  function Rank(phase: Phase): nat {
    match phase
    case Counted => 4
    case Registered => 3
    case Waiting => 2
    case Leaving(_) => 1
    case Returned(_) => 0
  }

  /** What is left of the drain once it holds the lock. */
  function DrainWork(s: State): nat {
    if s.reader.Draining? then 2 * |s.pending| + 1 else if s.reader.DrainSent? then 2 * |s.pending| else 0
  }

  /** The step a Request takes next once the transport has stopped; it needs nothing from anyone else. */
  function OwnStep(s: State, c: nat): Step
    requires c in s.callers && !s.callers[c].phase.Returned?
  {
    match s.callers[c].phase
    case Counted => Register(c)
    case Registered => Write(c, true)
    case Waiting => SeeStop(c)
    case Leaving(_) => Leave(c)
  }

  /** The step of the drain that comes next. */
  ghost function DrainStep(s: State): Step
    requires Locked(s)
  {
    if s.reader.DrainSent? then DrainDelete
    else if s.pending == map[] then DrainEnd
    else
      var k :| k in s.pending;
      DrainSend(k)
  }

  /** Once stopped, a Request can take its next step, which brings it nearer to returning, whenever the lock is free. */
  lemma StoppedRequestProceeds(s: State, c: nat)
    requires Reachable(s) && Stopped(s) && !Locked(s) && c in s.callers && !s.callers[c].phase.Returned?
    ensures Enabled(s, OwnStep(s, c))
    ensures var t := Apply(s, OwnStep(s, c)); Rank(t.callers[c].phase) < Rank(s.callers[c].phase)
  {
    hide Numeral, Reachable;
  }

  /** While the drain holds the lock it has a step to take, which leaves it less to do. */
  lemma DrainProceeds(s: State)
    requires Reachable(s) && Locked(s)
    ensures Enabled(s, DrainStep(s))
    ensures DrainWork(Apply(s, DrainStep(s))) < DrainWork(s)
  {
    hide Reachable, Apply, Enabled, DrainWork;
    RepliesAreOwnAndSendsNeverBlock(s);
    if s.reader.DrainSent? {
      SentIsPending(s);
      DeleteWork(s);
    } else if s.pending == map[] {
      EndWork(s);
    } else {
      SendWork(s, DrainStep(s).key);
    }
  }

  lemma SentIsPending(s: State)
    requires Reachable(s) && s.reader.DrainSent?
    ensures s.reader.key in s.pending
  {
    ReachableHolds(s);
    hide Reachable, PendingFits, CallersFit, IdsDistinct;
  }

  lemma DeleteWork(s: State)
    requires s.reader.DrainSent? && s.reader.key in s.pending
    ensures Enabled(s, DrainDelete) && DrainWork(Apply(s, DrainDelete)) < DrainWork(s)
  {
    RemoveOne(s.pending, s.reader.key);
  }

  lemma EndWork(s: State)
    requires s.reader.Draining? && s.pending == map[]
    ensures Enabled(s, DrainEnd) && DrainWork(Apply(s, DrainEnd)) < DrainWork(s)
  {
  }

  lemma SendWork(s: State, k: string)
    requires s.reader.Draining?
    requires Enabled(s, DrainSend(k))
    ensures DrainWork(Apply(s, DrainSend(k))) < DrainWork(s)
  {
  }

  lemma RemoveOne(m: map<string, nat>, k: string)
    requires k in m
    ensures |m - {k}| + 1 == |m|
  {
    assert (m - {k}).Keys == m.Keys - {k};
    assert |(m - {k}).Keys| == |m - {k}| && |m.Keys| == |m|;
  }

  /** Nobody else's step sets a Request back, adds to a drain under way, or restarts what has stopped. */
  lemma StepsNeverUndo(s: State, step: Step, c: nat)
    requires Enabled(s, step) && c in s.callers
    ensures var t := Apply(s, step);
            && c in t.callers && Rank(t.callers[c].phase) <= Rank(s.callers[c].phase)
            && (Stopped(s) ==> Stopped(t))
            && (Locked(s) && Locked(t) ==> |t.pending| <= |s.pending|)
            && (s.reader.ClosingDone? || s.reader.Exited? ==> !Locked(t))
  {
    hide Numeral, Rank, Apply, Enabled;
    RankNeverRises(s, step, c);
    PendingNeverGrows(s, step);
    StoppingIsFinal(s, step);
  }

  lemma StoppingIsFinal(s: State, step: Step)
    requires Enabled(s, step)
    ensures var t := Apply(s, step);
            (Stopped(s) ==> Stopped(t)) && (s.reader.ClosingDone? || s.reader.Exited? ==> !Locked(t))
  {
    if MovesCaller(step) {
      CallerFrame(s, step);
      hide Apply, Enabled;
    } else if MovesCloser(step) {
      CloserFrame(s, step);
      hide Apply, Enabled;
    } else {
      hide CallerCan, CallerMoves, CloserCan, CloserMoves;
    }
  }

  lemma RankNeverRises(s: State, step: Step, c: nat)
    requires Enabled(s, step) && c in s.callers
    ensures var t := Apply(s, step); c in t.callers && Rank(t.callers[c].phase) <= Rank(s.callers[c].phase)
  {
    if MovesCaller(step) {
      CallerRankFalls(s, step, c);
    } else {
      SendKeepsRank(s, step, c);
    }
    hide Apply, Enabled;
  }

  lemma CallerRankFalls(s: State, step: Step, c: nat)
    requires Enabled(s, step) && c in s.callers && MovesCaller(step)
    ensures var t := Apply(s, step); c in t.callers && Rank(t.callers[c].phase) <= Rank(s.callers[c].phase)
  {
    hide Numeral, CloserCan, CloserMoves, ReaderCan, ReaderMoves;
  }

  /** Only a Request's own steps change its phase. */
  lemma SendKeepsRank(s: State, step: Step, c: nat)
    requires Enabled(s, step) && !MovesCaller(step)
    ensures var t := Apply(s, step);
            && t.callers.Keys == s.callers.Keys && (c in s.callers ==> t.callers[c].phase == s.callers[c].phase)
  {
    if MovesCloser(step) {
      CloserFrame(s, step);
      hide Apply, Enabled;
    } else {
      hide Numeral, CallerCan, CallerMoves, CloserCan, CloserMoves;
    }
  }

  lemma PendingNeverGrows(s: State, step: Step)
    requires Enabled(s, step)
    ensures Locked(s) && Locked(Apply(s, step)) ==> |Apply(s, step).pending| <= |s.pending|
  {
    hide Apply, Enabled;
    if step.DrainDelete? {
      DeleteShrinks(s);
    } else if Locked(s) {
      LockKeepsPending(s, step);
    }
  }

  lemma DeleteShrinks(s: State)
    requires Enabled(s, DrainDelete)
    ensures |Apply(s, DrainDelete).pending| <= |s.pending|
  {
    MinusShrinks(s.pending, s.reader.key);
  }

  lemma MinusShrinks(m: map<string, nat>, k: string)
    ensures |m - {k}| <= |m|
  {
    if k in m {
      RemoveOne(m, k);
    } else {
      assert m - {k} == m;
    }
  }

  /** While the drain holds the lock nobody else changes the table. */
  lemma LockKeepsPending(s: State, step: Step)
    requires Locked(s) && Enabled(s, step) && !step.DrainDelete?
    ensures Apply(s, step).pending == s.pending
  {
    if MovesCaller(step) {
      CallerFrame(s, step);
      hide Apply, Enabled;
    } else if MovesCloser(step) {
      CloserFrame(s, step);
      hide Apply, Enabled;
    } else {
      hide CallerCan, CallerMoves, CloserCan, CloserMoves;
    }
  }

  lemma StepReaches(s: State, step: Step)
    requires Reachable(s) && Enabled(s, step)
    ensures Reachable(Apply(s, step))
  {
    var steps :| Runs(INITIAL, steps, s);
    RunsThen(INITIAL, steps, s, step);
  }

  lemma {:induction false} RunsThen(s: State, steps: seq<Step>, t: State, step: Step)
    requires Runs(s, steps, t) && Enabled(t, step)
    ensures Runs(s, steps + [step], Apply(t, step))
    decreases |steps|
  {
    hide Enabled, Apply;
    if steps == [] {
      assert [step][1..] == [];
    } else {
      RunsThen(Apply(s, steps[0]), steps[1..], t, step);
      assert (steps + [step])[1..] == steps[1..] + [step];
    }
  }

  /** A step of the one Request, or of the drain. */
  predicate OnlyBy(step: Step, c: nat) {
    step in {Register(c), Write(c, true), SeeStop(c), Leave(c), DrainDelete, DrainEnd} || step.DrainSend?
  }

  /**
   * From every stopped state every Request, old or newly begun, returns by its own steps and those of the
   * drain alone: it waits for no reply, no other caller and no line. One that is leaving keeps its outcome.
   */
  lemma {:induction false} StoppedRequestReturns(s: State, c: nat) returns (steps: seq<Step>, t: State)
    requires Reachable(s) && Stopped(s) && c in s.callers
    ensures Runs(s, steps, t) && c in t.callers && t.callers[c].phase.Returned?
    ensures forall i :: 0 <= i < |steps| ==> OnlyBy(steps[i], c)
    ensures s.callers[c].phase.Leaving? ==> t.callers[c].phase == Returned(s.callers[c].phase.outcome)
    ensures s.callers[c].phase.Returned? ==> t == s
    decreases Rank(s.callers[c].phase), DrainWork(s)
  {
    hide Reachable, Enabled, Apply, DrainWork, Rank, DrainStep, Numeral, Runs;
    if s.callers[c].phase.Returned? {
      RunsNone(s);
      return [], s;
    }
    var step := if Locked(s) then DrainStep(s) else OwnStep(s, c);
    StepIsOwn(s, c);
    if Locked(s) {
      DrainProceeds(s);
      DrainLeaves(s, c);
    } else {
      StoppedRequestProceeds(s, c);
    }
    StepsNeverUndo(s, step, c);
    if s.callers[c].phase.Leaving? {
      OutcomeStays(s, step, c);
    }
    StepReaches(s, step);
    var rest: seq<Step>;
    rest, t := StoppedRequestReturns(Apply(s, step), c);
    steps := [step] + rest;
    RunsCons(s, step, rest, t);
  }

  lemma OutcomeStays(s: State, step: Step, c: nat)
    requires Enabled(s, step) && OnlyBy(step, c) && c in s.callers && s.callers[c].phase.Leaving?
    ensures var t := Apply(s, step);
            c in t.callers && (t.callers[c].phase == s.callers[c].phase || t.callers[c].phase == Returned(s.callers[c].phase.outcome))
  {
    hide Numeral;
  }

  /** A Request leaving with an outcome, in a stopped transport, returns it. */
  lemma LeavingReturns(s: State, first: Step, u: State, second: Step, v: State, c: nat) returns (steps: seq<Step>, t: State)
    requires Reachable(s) && Enabled(s, first) && u == Apply(s, first) && Enabled(u, second) && v == Apply(u, second)
    requires Stopped(v) && c in v.callers && v.callers[c].phase.Leaving?
    ensures Runs(s, steps, t) && c in t.callers && t.callers[c].phase == Returned(v.callers[c].phase.outcome)
  {
    hide Reachable, Enabled, Apply, Runs, Stopped;
    StepReaches(s, first);
    StepReaches(u, second);
    var rest;
    rest, t := StoppedRequestReturns(v, c);
    RunsCons(u, second, rest, t);
    RunsCons(s, first, [second] + rest, t);
    steps := [first] + ([second] + rest);
  }

  /**
   * A waiting Request that the drain reaches can return the response the drain made up, without an error, or the
   * error that the transport is closed: both channels of its select are ready.
   */
  lemma DrainedReturnsEither(s: State, k: string) returns (steps: seq<Step>, t: State, steps': seq<Step>, t': State)
    requires Reachable(s)
    requires Enabled(s, DrainSend(k))
    requires s.callers[s.pending[k]].phase.Waiting?
    ensures Runs(s, steps, t) && s.pending[k] in t.callers && t.callers[s.pending[k]].phase == Returned(Got(ClosedReply(k)))
    ensures Runs(s, steps', t') && s.pending[k] in t'.callers && t'.callers[s.pending[k]].phase == Returned(TransportClosed)
  {
    var c, u := s.pending[k], Apply(s, DrainSend(k));
    assert Stopped(s) by {
      ReachableHolds(s);
      hide Reachable, PendingFits, CallersFit, IdsDistinct, ReaderFits;
    }
    hide Reachable, Runs, Numeral;
    assert Enabled(u, Receive(c)) && Enabled(u, SeeStop(c));
    steps, t := LeavingReturns(s, DrainSend(k), u, Receive(c), Apply(u, Receive(c)), c);
    steps', t' := LeavingReturns(s, DrainSend(k), u, SeeStop(c), Apply(u, SeeStop(c)), c);
  }

  lemma RunsNone(s: State)
    ensures Runs(s, [], s)
  {
  }

  lemma RunsCons(s: State, step: Step, rest: seq<Step>, t: State)
    requires Enabled(s, step) && Runs(Apply(s, step), rest, t)
    ensures Runs(s, [step] + rest, t)
  {
    hide Enabled, Apply;
    assert ([step] + rest)[1..] == rest;
  }

  lemma StepIsOwn(s: State, c: nat)
    requires c in s.callers && !s.callers[c].phase.Returned?
    ensures if Locked(s) then OnlyBy(DrainStep(s), c) else OnlyBy(OwnStep(s, c), c)
  {
  }

  lemma DrainLeaves(s: State, c: nat)
    requires Locked(s) && Enabled(s, DrainStep(s)) && c in s.callers
    ensures var t := Apply(s, DrainStep(s)); c in t.callers && Rank(t.callers[c].phase) <= Rank(s.callers[c].phase)
  {
    RankNeverRises(s, DrainStep(s), c);
    hide Apply, Enabled;
  }

  // ---------------------------------------------------------------- giving up, and shutting down

  /** A waiting Request that is cancelled, and one whose write fails, return just that and leave nothing in the table. */
  lemma GivesUp(s: State, c: nat, cancelled: bool) returns (t: State)
    requires Reachable(s) && !Locked(s) && c in s.callers
    requires if cancelled then s.callers[c].phase.Waiting? else s.callers[c].phase.Registered?
    ensures Runs(s, [if cancelled then Cancel(c) else Write(c, false), Leave(c)], t)
    ensures t.callers == s.callers[c := s.callers[c].(phase := Returned(if cancelled then Cancelled else WriteFailed))]
    ensures t.pending == s.pending - {Numeral(s.callers[c].id)} && t.reader == s.reader
  {
    hide Numeral, Reachable;
    var step := if cancelled then Cancel(c) else Write(c, false);
    var u := Apply(s, step);
    t := Apply(u, Leave(c));
    assert t.callers == s.callers[c := t.callers[c]];
    hide Apply, Enabled;
    RunsNone(t);
    RunsCons(u, Leave(c), [], t);
    RunsCons(s, step, [Leave(c)] + [], t);
    assert [step] + ([Leave(c)] + []) == [step, Leave(c)];
  }

  /** A Request's record once the drain has sent to it. */
  function Drained(x: Caller, k: string): Caller {
    x.(buffer := Some(Reply(k, "mcp: transport closed")), sends := 1)
  }

  /** The drain sent its response to everybody in the table, and touched nobody else. */
  predicate AllDrained(s: State, t: State) {
    && t.callers.Keys == s.callers.Keys
    && (forall k | k in s.pending :: s.pending[k] in s.callers && t.callers[s.pending[k]] == Drained(s.callers[s.pending[k]], k))
    && (forall c | c in s.callers && c !in s.pending.Values :: t.callers[c] == s.callers[c])
  }

  /** From the lock on, the drain by its own steps answers every Request in the table, and empties it. */
  lemma {:induction false} DrainAnswersAll(s: State) returns (steps: seq<Step>, t: State)
    requires Reachable(s) && s.reader.Draining?
    ensures Runs(s, steps, t) && AllDrained(s, t) && Reachable(t)
    ensures t == s.(callers := t.callers, pending := map[], reader := ClosingDone)
    ensures forall i :: 0 <= i < |steps| ==> steps[i].DrainSend? || steps[i].DrainDelete? || steps[i].DrainEnd?
    decreases |s.pending|
  {
    hide Reachable, Enabled, Apply, Runs, AllDrained, Numeral;
    if s.pending == map[] {
      t := LastDrain(s);
      StepReaches(s, DrainEnd);
      RunsNone(t);
      RunsCons(s, DrainEnd, [], t);
      steps := [DrainEnd] + [];
    } else {
      var k :| k in s.pending;
      var u, v := OneDrained(s, k);
      RemoveOne(s.pending, k);
      var rest: seq<Step>;
      rest, t := DrainAnswersAll(v);
      DrainedTogether(s, k, v, t);
      RunsCons(u, DrainDelete, rest, t);
      RunsCons(s, DrainSend(k), [DrainDelete] + rest, t);
      steps := [DrainSend(k)] + ([DrainDelete] + rest);
    }
  }

  lemma LastDrain(s: State) returns (t: State)
    requires s.reader.Draining? && s.pending == map[]
    ensures Enabled(s, DrainEnd) && t == Apply(s, DrainEnd) && AllDrained(s, t) && t == s.(pending := map[], reader := ClosingDone)
  {
    t := Apply(s, DrainEnd);
  }

  lemma OneDrained(s: State, k: string) returns (u: State, v: State)
    requires Reachable(s) && s.reader.Draining? && k in s.pending
    ensures Enabled(s, DrainSend(k)) && u == Apply(s, DrainSend(k)) && Enabled(u, DrainDelete) && v == Apply(u, DrainDelete)
    ensures Reachable(v) && s.pending[k] in s.callers
    ensures v == s.(callers := s.callers[s.pending[k] := Drained(s.callers[s.pending[k]], k)], pending := s.pending - {k})
    ensures forall j | j in s.pending :: s.pending[j] in s.callers && (j != k ==> s.pending[j] != s.pending[k])
  {
    hide Reachable, Enabled, Apply, Numeral;
    TableApart(s, k);
    RepliesAreOwnAndSendsNeverBlock(s);
    u, v := SendAndDelete(s, k);
    StepReaches(s, DrainSend(k));
    StepReaches(u, DrainDelete);
  }

  lemma TableApart(s: State, k: string)
    requires Reachable(s) && s.reader.Draining? && k in s.pending
    ensures forall j | j in s.pending :: s.pending[j] in s.callers && (j != k ==> s.pending[j] != s.pending[k])
    ensures s.callers[s.pending[k]].sends == 0
  {
    ReachableHolds(s);
    hide Reachable, IdsDistinct, CallersFit, ReaderFits, ChannelsFit, Numeral;
  }

  lemma SendAndDelete(s: State, k: string) returns (u: State, v: State)
    requires s.reader.Draining? && k in s.pending && s.pending[k] in s.callers && s.callers[s.pending[k]].sends == 0
    requires Enabled(s, DrainSend(k))
    ensures u == Apply(s, DrainSend(k)) && Enabled(u, DrainDelete) && v == Apply(u, DrainDelete)
    ensures v == s.(callers := s.callers[s.pending[k] := Drained(s.callers[s.pending[k]], k)], pending := s.pending - {k})
  {
    hide CallerCan, CallerMoves, CloserCan, CloserMoves;
    u := Apply(s, DrainSend(k));
    v := Apply(u, DrainDelete);
  }

  lemma DrainedTogether(s: State, k: string, v: State, t: State)
    requires k in s.pending && s.pending[k] in s.callers
    requires v == s.(callers := s.callers[s.pending[k] := Drained(s.callers[s.pending[k]], k)], pending := s.pending - {k})
    requires forall j | j in s.pending :: s.pending[j] in s.callers && (j != k ==> s.pending[j] != s.pending[k])
    requires AllDrained(v, t)
    ensures AllDrained(s, t)
  {
    forall j | j in s.pending ensures t.callers[s.pending[j]] == Drained(s.callers[s.pending[j]], j) {
      if j != k {
        assert j in v.pending && v.pending[j] == s.pending[j];
      } else {
        assert s.pending[k] !in v.pending.Values;
      }
    }
    forall c | c in s.callers && c !in s.pending.Values ensures t.callers[c] == s.callers[c] {
      assert c != s.pending[k] && c !in v.pending.Values;
    }
  }

  /**
   * The read loop, once it is about to take the lock, by its own steps sends everybody who is in the table then the
   * response with their id, and goes on to close the done channel with the table empty.
   */
  lemma LockDrains(s: State) returns (steps: seq<Step>, t: State)
    requires Reachable(s) && s.reader.Locking?
    ensures Runs(s, steps, t) && AllDrained(s, t) && t == s.(callers := t.callers, pending := map[], reader := ClosingDone)
    ensures forall i :: 0 <= i < |steps| ==> steps[i].Lock? || steps[i].DrainSend? || steps[i].DrainDelete? || steps[i].DrainEnd?
  {
    hide Reachable, Runs, AllDrained, Numeral;
    var u := Apply(s, Lock);
    StepReaches(s, Lock);
    var rest;
    rest, t := DrainAnswersAll(u);
    SameDrained(s, u, t);
    RunsCons(s, Lock, rest, t);
    steps := [Lock] + rest;
  }

  lemma SameDrained(s: State, u: State, t: State)
    requires u.callers == s.callers && u.pending == s.pending && AllDrained(u, t)
    ensures AllDrained(s, t)
  {
  }

  /** The read loop's next step towards its end: it goes through with the line it has, and then finds no more. */
  function ReaderStep(s: State): Step
    requires !s.reader.NotStarted? && !s.reader.Exited? && !Locked(s)
  {
    match s.reader
    case Scanning => Eof
    case Dispatching(_) => Dispatch
    case Routing(_, _) => Send
    case Signalling => Signal
    case Locking => Lock
    case _ => CloseDone
  }

  function ReaderLeft(r: Reader): nat {
    match r
    case NotStarted => 9
    case Dispatching(_) => 8
    case Routing(_, _) => 7
    case Scanning => 6
    case Signalling => 5
    case Locking => 4
    case Draining => 3
    case DrainSent(_) => 3
    case ClosingDone => 1
    case Exited => 0
  }

  /** A step of the read loop. */
  predicate OfReader(step: Step) {
    !MovesCaller(step) && !MovesCloser(step)
  }

  /** The read loop comes to its end by its own steps, whatever it was doing: it stops, drains and closes the done channel. */
  lemma {:induction false} ReaderFinishes(s: State) returns (steps: seq<Step>, t: State)
    requires Reachable(s) && !s.reader.NotStarted?
    ensures Runs(s, steps, t) && Reachable(t) && t.reader.Exited? && t.doneCloses == 1 && t.stopCloses == 1
    ensures t.closers == s.closers && t.closeOnce == s.closeOnce && t.closeRan == s.closeRan
    ensures forall i :: 0 <= i < |steps| ==> OfReader(steps[i])
    decreases ReaderLeft(s.reader), |s.pending|
  {
    hide Reachable, Enabled, Apply, Runs, Numeral, AllDrained;
    var rest: seq<Step>;
    if s.reader.Exited? {
      ExitedClosed(s);
      RunsNone(s);
      return [], s;
    } else if s.reader.Draining? {
      var first, u := DrainAnswersAll(s);
      rest, t := ReaderFinishes(u);
      RunsJoin(s, first, u, rest, t);
      steps := first + rest;
    } else if s.reader.DrainSent? {
      var u := DeleteGoesOn(s);
      var first, v := DrainAnswersAll(u);
      rest, t := ReaderFinishes(v);
      RunsJoin(u, first, v, rest, t);
      RunsCons(s, DrainDelete, first + rest, t);
      steps := [DrainDelete] + (first + rest);
    } else {
      var u := ReaderGoes(s);
      rest, t := ReaderFinishes(u);
      RunsCons(s, ReaderStep(s), rest, t);
      steps := [ReaderStep(s)] + rest;
    }
  }

  lemma ExitedClosed(s: State)
    requires Reachable(s) && s.reader.Exited?
    ensures s.doneCloses == 1 && s.stopCloses == 1
  {
    ReachableHolds(s);
    hide Reachable, IdsDistinct, CallersFit, PendingFits, ReaderFits;
  }

  lemma DeleteGoesOn(s: State) returns (t: State)
    requires Reachable(s) && s.reader.DrainSent?
    ensures Enabled(s, DrainDelete) && t == Apply(s, DrainDelete) && Reachable(t) && t.reader.Draining?
    ensures t.closers == s.closers && t.closeOnce == s.closeOnce && t.closeRan == s.closeRan
  {
    hide Reachable;
    t := Apply(s, DrainDelete);
    StepReaches(s, DrainDelete);
  }

  lemma ReaderGoes(s: State) returns (t: State)
    requires Reachable(s) && !s.reader.NotStarted? && !s.reader.Exited? && !Locked(s)
    ensures Enabled(s, ReaderStep(s)) && t == Apply(s, ReaderStep(s)) && Reachable(t) && OfReader(ReaderStep(s))
    ensures !t.reader.NotStarted? && ReaderLeft(t.reader) < ReaderLeft(s.reader)
    ensures t.closers == s.closers && t.closeOnce == s.closeOnce && t.closeRan == s.closeRan
  {
    hide Reachable, Numeral, Enabled, Apply, ReaderLeft, OfReader, ReaderStep;
    RepliesAreOwnAndSendsNeverBlock(s);
    ReaderCanGo(s);
    t := Apply(s, ReaderStep(s));
    ReaderGoesDown(s);
    StepReaches(s, ReaderStep(s));
  }

  lemma ReaderCanGo(s: State)
    requires !s.reader.NotStarted? && !s.reader.Exited? && !Locked(s)
    requires s.reader.Routing? ==> Enabled(s, Send)
    ensures Enabled(s, ReaderStep(s)) && OfReader(ReaderStep(s))
  {
    hide CallerCan, CloserCan;
  }

  lemma ReaderGoesDown(s: State)
    requires !s.reader.NotStarted? && !s.reader.Exited? && !Locked(s) && Enabled(s, ReaderStep(s))
    ensures var t := Apply(s, ReaderStep(s));
            && !t.reader.NotStarted? && ReaderLeft(t.reader) < ReaderLeft(s.reader)
            && t.closers == s.closers && t.closeOnce == s.closeOnce && t.closeRan == s.closeRan
  {
    IsReaderMove(s);
    hide Apply, Enabled, Numeral, ReaderCan;
    match s.reader
    case Dispatching(line) => RoutedGoesDown(s);
    case _ =>
  }

  lemma IsReaderMove(s: State)
    requires !s.reader.NotStarted? && !s.reader.Exited? && !Locked(s) && Enabled(s, ReaderStep(s))
    ensures OfReader(ReaderStep(s)) && ReaderCan(s, ReaderStep(s))
    ensures Apply(s, ReaderStep(s)) == ReaderMoves(s, ReaderStep(s))
  {
    hide CallerCan, CallerMoves, CloserCan, CloserMoves, ReaderCan, ReaderMoves;
  }

  lemma RoutedGoesDown(s: State)
    requires s.reader.Dispatching?
    ensures var t := Routed(s, s.reader.line);
            && (t.reader.Routing? || t.reader.Scanning?)
            && t.closers == s.closers && t.closeOnce == s.closeOnce && t.closeRan == s.closeRan
  {
  }

  lemma {:induction false} RunsJoin(s: State, a: seq<Step>, t: State, b: seq<Step>, u: State)
    requires Runs(s, a, t) && Runs(t, b, u)
    ensures Runs(s, a + b, u)
    decreases |a|
  {
    hide Enabled, Apply;
    if a == [] {
      assert a + b == b;
    } else {
      assert (a + b)[1..] == a[1..] + b;
      RunsJoin(Apply(s, a[0]), a[1..], t, b, u);
    }
  }

  /**
   * On a transport that was started, a Close that no other is holding up returns by its own steps and the read
   * loop's, with the stop and done channels closed.
   */
  lemma CloseReturns(s: State, x: nat) returns (steps: seq<Step>, t: State)
    requires Reachable(s) && !s.reader.NotStarted? && x !in s.closers && (s.closeOnce.None? || s.closeRan)
    ensures Runs(s, steps, t) && CloserIn(t, x, CloseReturned) && t.doneCloses == 1 && t.stopCloses == 1
    ensures forall i :: 0 <= i < |steps| ==>
              OfReader(steps[i]) || steps[i] in {Close(x), CloseEnter(x), CloseSignal(x), CloseReader(x), CloseReturn(x)}
  {
    hide Reachable, Enabled, Apply, Runs, OfReader;
    var entry, u := CloserWaits(s, x);
    var middle, v := ReaderFinishes(u);
    t := CloserLeaves(v, x);
    RunsNone(t);
    RunsCons(v, CloseReturn(x), [], t);
    RunsJoin(u, middle, v, [CloseReturn(x)] + [], t);
    RunsJoin(s, entry, u, middle + ([CloseReturn(x)] + []), t);
    steps := entry + (middle + ([CloseReturn(x)] + []));
  }

  lemma CloserLeaves(s: State, x: nat) returns (t: State)
    requires CloserIn(s, x, Awaits) && s.doneCloses == 1 && s.stopCloses == 1
    ensures Enabled(s, CloseReturn(x)) && t == Apply(s, CloseReturn(x))
    ensures CloserIn(t, x, CloseReturned) && t.doneCloses == 1 && t.stopCloses == 1
  {
    t := Apply(s, CloseReturn(x));
  }

  /** A Close gets by its own steps to where it waits for the read loop; the first one has stopped the transport by then. */
  lemma CloserWaits(s: State, x: nat) returns (steps: seq<Step>, t: State)
    requires Reachable(s) && x !in s.closers && (s.closeOnce.None? || s.closeRan)
    ensures Runs(s, steps, t) && Reachable(t) && CloserIn(t, x, Awaits) && t.reader == s.reader
    ensures s.closeOnce.None? ==> Stopped(t)
    ensures forall i :: 0 <= i < |steps| ==> steps[i] in {Close(x), CloseEnter(x), CloseSignal(x), CloseReader(x)}
  {
    hide Reachable, Runs, Enabled, Apply, CloserIn, Stopped;
    var a, b := CloserEnters(s, x);
    StepReaches(s, Close(x));
    StepReaches(a, CloseEnter(x));
    if s.closeOnce.Some? {
      t := b;
      RunsNone(t);
      RunsCons(a, CloseEnter(x), [], t);
      RunsCons(s, Close(x), [CloseEnter(x)] + [], t);
      steps := [Close(x)] + ([CloseEnter(x)] + []);
    } else {
      var d;
      EnteredHolds(s, x, b);
      d, t := CloserSignals(b, x);
      StepReaches(b, CloseSignal(x));
      StepReaches(d, CloseReader(x));
      RunsNone(t);
      RunsCons(d, CloseReader(x), [], t);
      RunsCons(b, CloseSignal(x), [CloseReader(x)] + [], t);
      RunsCons(a, CloseEnter(x), [CloseSignal(x)] + ([CloseReader(x)] + []), t);
      RunsCons(s, Close(x), [CloseEnter(x)] + ([CloseSignal(x)] + ([CloseReader(x)] + [])), t);
      steps := [Close(x)] + ([CloseEnter(x)] + ([CloseSignal(x)] + ([CloseReader(x)] + [])));
    }
  }

  lemma CloserEnters(s: State, x: nat) returns (a: State, b: State)
    requires x !in s.closers && (s.closeOnce.None? || s.closeRan)
    ensures Enabled(s, Close(x)) && a == Apply(s, Close(x)) && Enabled(a, CloseEnter(x)) && b == Apply(a, CloseEnter(x))
    ensures b.reader == s.reader && CloserIn(b, x, if s.closeOnce.Some? then Awaits else Signals)
  {
    hide CallerCan, CallerMoves, ReaderCan, ReaderMoves;
    a := Apply(s, Close(x));
    b := Apply(a, CloseEnter(x));
  }

  lemma EnteredHolds(s: State, x: nat, b: State)
    requires Reachable(b)
    ensures ChannelsFit(b)
  {
    ReachableHolds(b);
    hide Reachable, IdsDistinct, CallersFit, PendingFits, ReaderFits;
  }

  lemma CloserSignals(s: State, x: nat) returns (d: State, t: State)
    requires CloserIn(s, x, Signals) && ChannelsFit(s)
    ensures Stopped(t)
    ensures Enabled(s, CloseSignal(x)) && d == Apply(s, CloseSignal(x)) && Enabled(d, CloseReader(x)) && t == Apply(d, CloseReader(x))
    ensures t.reader == s.reader && CloserIn(t, x, Awaits)
  {
    hide CallerCan, CallerMoves, ReaderCan, ReaderMoves;
    d := Apply(s, CloseSignal(x));
    t := Apply(d, CloseReader(x));
  }
}
