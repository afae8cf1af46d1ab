/**
 SIO2MAN's handshake (src/iop/sio2man.cpp): a pad client, a card client, the service thread and the
 interrupt, interleaved one kernel call at a time over an event flag whose bits stay set until cleared.
 */
module Sio2 {

  datatype Who = Pad | Card

  datatype Bit = PadRequest | PadAck | McRequest | McAck | Run | Done | Release | Finished

  function Request(w: Who): Bit { if w.Pad? then PadRequest else McRequest }
  function Ack(w: Who): Bit { if w.Pad? then PadAck else McAck }
  function Other(w: Who): Who { if w.Pad? then Card else Pad }

  /** Where a client stands: outside, in `claim`, or in `doTransfer`. */
  datatype ClientPc = Outside | SetRequest | WaitAck | ClearAck | SetTransfer | SetRun
    | WaitDone | ClearDone | SetRelease

  /** Where the service thread stands in its loop. */
  datatype ServicePc =
    | WaitRequest | ClearRequest | SetAck | WaitRun | ClearRun | Push | Start
    | WaitFinished | ClearFinished | Harvest | SetDone | WaitRelease | ClearRelease | Exited

  /** A client with the descriptors it has handed over and those harvested on its behalf. */
  datatype Client = Client(pc: ClientPc, submitted: seq<int>, served: seq<int>)

  /**
   `result` is what the thread's last wait for a request saw and `turn` whom it then chose; `transfer`
   is the shared pointer, `loaded` the descriptor last pushed, `busy` the port between start and interrupt.
   */
  datatype State = State(bits: set<Bit>, pad: Client, card: Client, service: ServicePc, result: set<Bit>, turn: Who,
                         transfer: int, loaded: int, busy: bool)
  {
    function At(w: Who): Client { if w.Pad? then pad else card }
    function With(w: Who, c: Client): State { if w.Pad? then this.(pad := c) else this.(card := c) }
  }

  /** One atomic action; a client entering brings the descriptor of the transfer it will make. */
  datatype Step = Enter(who: Who) | Advance(who: Who, td: int) | Serve | Interrupt

  predicate Enabled(s: State, step: Step) {
    match step
    case Enter(w) => s.At(w).pc.Outside?
    case Advance(w, _) =>
      (match s.At(w).pc
       case Outside => false
       case WaitAck => Ack(w) in s.bits
       case WaitDone => Done in s.bits
       case _ => true)
    case Serve =>
      (match s.service
       case WaitRequest => PadRequest in s.bits || McRequest in s.bits
       case WaitRun => Run in s.bits
       case WaitFinished => Finished in s.bits
       case WaitRelease => Release in s.bits
       case Exited => false
       case _ => true)
    case Interrupt => s.busy
  }

  function ClientStep(s: State, w: Who, td: int): State {
    var c := s.At(w);
    match c.pc
    case Outside => s
    case SetRequest => s.With(w, c.(pc := WaitAck)).(bits := s.bits + {Request(w)})
    case WaitAck => s.With(w, c.(pc := ClearAck))
    case ClearAck => s.With(w, c.(pc := SetTransfer)).(bits := s.bits - {Ack(w)})
    case SetTransfer => s.With(w, c.(pc := SetRun, submitted := c.submitted + [td])).(transfer := td)
    case SetRun => s.With(w, c.(pc := WaitDone)).(bits := s.bits + {Run})
    case WaitDone => s.With(w, c.(pc := ClearDone))
    case ClearDone => s.With(w, c.(pc := SetRelease)).(bits := s.bits - {Done})
    case SetRelease => s.With(w, c.(pc := Outside)).(bits := s.bits + {Release})
  }

  function ServiceStep(s: State): State {
    match s.service
    case WaitRequest => s.(service := ClearRequest, result := s.bits)
    case ClearRequest =>
      if PadRequest in s.result then s.(service := SetAck, turn := Pad, bits := s.bits - {PadRequest})
      else if McRequest in s.result then s.(service := SetAck, turn := Card, bits := s.bits - {McRequest})
      else s.(service := Exited)
    case SetAck => s.(service := WaitRun, bits := s.bits + {Ack(s.turn)})
    case WaitRun => s.(service := ClearRun)
    case ClearRun => s.(service := Push, bits := s.bits - {Run})
    case Push => s.(service := Start, loaded := s.transfer)
    case Start => s.(service := WaitFinished, busy := true)
    case WaitFinished => s.(service := ClearFinished)
    case ClearFinished => s.(service := Harvest, bits := s.bits - {Finished})
    case Harvest => s.With(s.turn, s.At(s.turn).(served := s.At(s.turn).served + [s.transfer])).(service := SetDone)
    case SetDone => s.(service := WaitRelease, bits := s.bits + {Done})
    case WaitRelease => s.(service := ClearRelease)
    case ClearRelease => s.(service := WaitRequest, bits := s.bits - {Release})
    case Exited => s
  }

  function Next(s: State, step: Step): State {
    match step
    case Enter(w) => s.With(w, s.At(w).(pc := SetRequest))
    case Advance(w, td) => ClientStep(s, w, td)
    case Serve => ServiceStep(s)
    case Interrupt => s.(busy := false, bits := s.bits + {Finished})
  }

  const Idle := Client(Outside, [], [])
  const Initial := State({}, Idle, Idle, WaitRequest, {}, Pad, 0, 0, false)

  // ----- the invariant --------------------------------------------------------------------------

  /** The thread is serving: it has chosen a client and that client has not released it. */
  ghost predicate Serving(s: State) {
    match s.service
    case WaitRequest => false
    case ClearRequest => false
    case ClearRelease => false
    case WaitRelease => Release !in s.bits
    case _ => true
  }

  /** A client past its acknowledgement and short of its release. */
  predicate Inside(c: Client) {
    c.pc.ClearAck? || c.pc.SetTransfer? || c.pc.SetRun? || c.pc.WaitDone? || c.pc.ClearDone? || c.pc.SetRelease?
  }

  /** A client the thread is not serving is outside or asking. */
  ghost predicate NotServed(s: State, w: Who) {
    && (s.At(w).pc.Outside? || s.At(w).pc.SetRequest? || s.At(w).pc.WaitAck?)
    && (Request(w) in s.bits <==> s.At(w).pc.WaitAck?)
    && Ack(w) !in s.bits
    && s.At(w).served == s.At(w).submitted
  }

  /** All descriptors but the one in hand have been harvested. */
  ghost predicate OneInHand(c: Client, td: int) {
    c.submitted == c.served + [td]
  }

  /** How the thread and the client it serves keep step. */
  ghost predicate InStep(s: State) {
    var w := s.turn;
    var c := s.At(w);
    && Request(w) !in s.bits
    && (Ack(w) in s.bits <==> s.service.WaitRun? && (c.pc.WaitAck? || c.pc.ClearAck?))
    && (Run in s.bits <==> c.pc.WaitDone? && (s.service.WaitRun? || s.service.ClearRun?))
    && (Finished in s.bits <==> !s.busy && (s.service.WaitFinished? || s.service.ClearFinished?))
    && (s.busy ==> s.service.WaitFinished?)
    && (Done in s.bits <==> s.service.WaitRelease? && (c.pc.WaitDone? || c.pc.ClearDone?))
    && Release !in s.bits
    && (match s.service
        case SetAck => c.pc.WaitAck? && c.served == c.submitted
        case WaitRun =>
          (match c.pc
           case WaitAck => c.served == c.submitted
           case ClearAck => c.served == c.submitted
           case SetTransfer => c.served == c.submitted
           case SetRun => OneInHand(c, s.transfer)
           case WaitDone => OneInHand(c, s.transfer)
           case _ => false)
        case ClearRun => c.pc.WaitDone? && OneInHand(c, s.transfer)
        case Push => c.pc.WaitDone? && OneInHand(c, s.transfer)
        case Start => c.pc.WaitDone? && OneInHand(c, s.transfer) && s.loaded == s.transfer
        case WaitFinished => c.pc.WaitDone? && OneInHand(c, s.transfer) && s.loaded == s.transfer
        case ClearFinished => c.pc.WaitDone? && OneInHand(c, s.transfer) && s.loaded == s.transfer
        case Harvest => c.pc.WaitDone? && OneInHand(c, s.transfer) && s.loaded == s.transfer
        case SetDone => c.pc.WaitDone? && c.served == c.submitted
        case WaitRelease => (c.pc.WaitDone? || c.pc.ClearDone? || c.pc.SetRelease?) && c.served == c.submitted
        case _ => false)
  }

  ghost predicate Invariant(s: State) {
    if Serving(s) then
      InStep(s) && NotServed(s, Other(s.turn))
    else
      && NotServed(s, Pad) && NotServed(s, Card) && !s.busy
      && Run !in s.bits && Done !in s.bits && Finished !in s.bits
      && (Release in s.bits <==> s.service.WaitRelease? || s.service.ClearRelease?)
      && (s.service.WaitRequest? || s.service.ClearRequest? || s.service.WaitRelease? || s.service.ClearRelease?)
      && (s.service.ClearRequest? ==>
          && (PadRequest in s.result ==> PadRequest in s.bits)
          && (McRequest in s.result ==> McRequest in s.bits)
          && (PadRequest in s.result || McRequest in s.result))
  }

  lemma InitialHolds()
    ensures Invariant(Initial)
  {
  }

  lemma EnterKeeps(s: State, w: Who)
    requires Invariant(s) && Enabled(s, Enter(w))
    ensures Invariant(Next(s, Enter(w)))
  {
  }

  lemma AdvanceKeeps(s: State, w: Who, td: int)
    requires Invariant(s) && Enabled(s, Advance(w, td))
    ensures Invariant(Next(s, Advance(w, td)))
  {
    if Serving(s) && w == s.turn {
      ServedAdvances(s, td);
    } else {
      AskerAdvances(s, w, td);
    }
  }

  lemma ServedAdvances(s: State, td: int)
    requires Invariant(s) && Serving(s) && Enabled(s, Advance(s.turn, td))
    ensures Invariant(Next(s, Advance(s.turn, td)))
  {
    if s.turn.Pad? { assert Other(s.turn) == Card; } else { assert Other(s.turn) == Pad; }
  }

  lemma AskerAdvances(s: State, w: Who, td: int)
    requires Invariant(s) && Enabled(s, Advance(w, td)) && (Serving(s) ==> w != s.turn)
    ensures Invariant(Next(s, Advance(w, td)))
  {
    assert s.At(w).pc.SetRequest?;
  }

  lemma ServeKeeps(s: State)
    requires Invariant(s) && Enabled(s, Serve)
    ensures Invariant(Next(s, Serve))
  {
  }

  lemma InterruptKeeps(s: State)
    requires Invariant(s) && Enabled(s, Interrupt)
    ensures Invariant(Next(s, Interrupt))
  {
  }

  /** States reached from the start by enabled steps, in any order. */
  ghost predicate Reaches(s: State, steps: seq<Step>, t: State)
    decreases |steps|
  {
    if steps == [] then t == s
    else Enabled(s, steps[0]) && Reaches(Next(s, steps[0]), steps[1..], t)
  }

  lemma {:induction false} RunKeeps(s: State, steps: seq<Step>, t: State)
    requires Invariant(s) && Reaches(s, steps, t)
    ensures Invariant(t)
    decreases |steps|
  {
    hide Invariant, Enabled, Next;
    if steps != [] {
      match steps[0] {
        case Enter(w) => EnterKeeps(s, w);
        case Advance(w, td) => AdvanceKeeps(s, w, td);
        case Serve => ServeKeeps(s);
        case Interrupt => InterruptKeeps(s);
      }
      RunKeeps(Next(s, steps[0]), steps[1..], t);
    }
  }

  // ----- what every run keeps --------------------------------------------------------------------------

  /** At most one client is between its acknowledgement and its release, and the thread never exits. */
  lemma OneClientInside(steps: seq<Step>, t: State)
    requires Reaches(Initial, steps, t)
    ensures !(Inside(t.pad) && Inside(t.card))
    ensures !t.service.Exited?
  {
    InitialHolds();
    RunKeeps(Initial, steps, t);
  }

  /** The descriptor pushed and harvested is the waiting client's own latest one. */
  lemma OwnDescriptor(steps: seq<Step>, t: State)
    requires Reaches(Initial, steps, t)
    ensures t.service.Push? ==> t.At(t.turn).submitted == t.At(t.turn).served + [t.transfer]
    ensures t.service.Harvest? ==>
      t.At(t.turn).submitted == t.At(t.turn).served + [t.transfer] && t.loaded == t.transfer
  {
    InitialHolds();
    RunKeeps(Initial, steps, t);
  }

  /** A client that is outside has had each descriptor it handed over harvested once, in order. */
  lemma EachServedOnce(steps: seq<Step>, t: State, w: Who)
    requires Reaches(Initial, steps, t)
    ensures t.At(w).pc.Outside? ==> t.At(w).served == t.At(w).submitted
    ensures t.At(w).served <= t.At(w).submitted && |t.At(w).submitted| <= |t.At(w).served| + 1
  {
    InitialHolds();
    RunKeeps(Initial, steps, t);
  }

  /** Whenever a client is waiting for anything, some step other than a client's entering is enabled. */
  lemma NeverStuck(steps: seq<Step>, t: State)
    requires Reaches(Initial, steps, t) && !(t.pad.pc.Outside? && t.card.pc.Outside?)
    ensures Enabled(t, Serve) || Enabled(t, Interrupt) || Enabled(t, Advance(Pad, 0)) || Enabled(t, Advance(Card, 0))
  {
    InitialHolds();
    RunKeeps(Initial, steps, t);
  }

  /** Until the thread goes on, what its wait for a request saw stays as it was. */
  lemma {:induction false} ResultStays(s: State, steps: seq<Step>, t: State)
    requires s.service.ClearRequest? && Reaches(s, steps, t) && forall i :: 0 <= i < |steps| ==> !steps[i].Serve?
    ensures t.service.ClearRequest? && t.result == s.result
    decreases |steps|
  {
    if steps != [] { ResultStays(Next(s, steps[0]), steps[1..], t); }
  }

  /**
   Whom a wait leads to, whatever the clients and the interrupt do before the thread goes on: the pad client
   if it was asking and otherwise the card client, which alone has its request withdrawn.
   */
  lemma PadComesFirst(before: seq<Step>, s: State, between: seq<Step>, t: State)
    requires Reaches(Initial, before, s) && s.service.WaitRequest? && Enabled(s, Serve)
    requires Reaches(Next(s, Serve), between, t) && forall i :: 0 <= i < |between| ==> !between[i].Serve?
    ensures var u := Next(t, Serve);
      && u.service.SetAck? && Enabled(t, Serve)
      && u.turn == (if PadRequest in s.bits then Pad else Card)
      && (PadRequest in s.bits || McRequest in s.bits)
      && u.bits == t.bits - {if PadRequest in s.bits then PadRequest else McRequest}
      && (McRequest in s.bits && u.turn.Pad? ==> McRequest in u.bits)
  {
    InitialHolds();
    RunKeeps(Initial, before, s);
    RunKeeps(s, [Serve], Next(s, Serve));
    RunKeeps(Next(s, Serve), between, t);
    ResultStays(Next(s, Serve), between, t);
  }

  // ----- progress ----------------------------------------------------------------------------------------

  function ClientLeft(pc: ClientPc): nat {
    match pc
    case Outside => 0 case SetRequest => 8 case WaitAck => 7 case ClearAck => 6 case SetTransfer => 5
    case SetRun => 4 case WaitDone => 3 case ClearDone => 2 case SetRelease => 1
  }

  /** Steps the thread and the interrupt still owe the round in hand. */
  function RoundLeft(s: State): int {
    match s.service
    case WaitRequest => 0 case ClearRequest => -1 case SetAck => 12 case WaitRun => 11 case ClearRun => 10
    case Push => 9 case Start => 8
    case WaitFinished => if s.busy then 7 else 6
    case ClearFinished => 5 case Harvest => 4
    case SetDone => 3 case WaitRelease => 2 case ClearRelease => 1 case Exited => 0
  }

  /** A client that will still have to be chosen. */
  predicate Asking(s: State, w: Who) {
    s.At(w).pc.SetRequest? || (s.At(w).pc.WaitAck? && Request(w) in s.bits)
  }

  /** An upper bound on the steps left if nobody else enters. */
  function Left(s: State): int {
    ClientLeft(s.pad.pc) + ClientLeft(s.card.pc) + RoundLeft(s)
    + (if Asking(s, Pad) then 14 else 0) + if Asking(s, Card) then 14 else 0
  }

  lemma LeftShrinks(s: State, step: Step)
    requires Invariant(s) && Enabled(s, step) && !step.Enter?
    ensures 0 <= Left(Next(s, step)) < Left(s)
  {
    hide *;
    match step
    case Advance(w, td) => AdvanceShrinks(s, w, td);
    case Serve => ServeShrinks(s);
    case Interrupt => InterruptShrinks(s);
  }

  lemma AdvanceShrinks(s: State, w: Who, td: int)
    requires Invariant(s) && Enabled(s, Advance(w, td))
    ensures 0 <= Left(Next(s, Advance(w, td))) < Left(s)
  {
  }

  lemma ServeShrinks(s: State)
    requires Invariant(s) && Enabled(s, Serve)
    ensures 0 <= Left(Next(s, Serve)) < Left(s)
  {
  }

  lemma InterruptShrinks(s: State)
    requires Invariant(s) && Enabled(s, Interrupt)
    ensures 0 <= Left(Next(s, Interrupt)) < Left(s)
  {
  }

  /** With no client entering, every run is short and can always be carried on until both clients are out. */
  lemma {:induction false} RoundsEnd(s: State, steps: seq<Step>, t: State)
    requires Invariant(s) && Reaches(s, steps, t) && forall i :: 0 <= i < |steps| ==> !steps[i].Enter?
    ensures |steps| <= Left(s) - Left(t) && 0 <= Left(s)
    decreases |steps|
  {
    if steps == [] {
      LeftBounded(s);
    } else {
      RunKeeps(s, [steps[0]], Next(s, steps[0]));
      LeftShrinks(s, steps[0]);
      RoundsEnd(Next(s, steps[0]), steps[1..], t);
    }
  }

  lemma LeftBounded(s: State)
    requires Invariant(s)
    ensures 0 <= Left(s)
  {
  }
}
