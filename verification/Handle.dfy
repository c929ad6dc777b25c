/** The asynchronous I/O handle: reference counts, pending operations, cancel records,
    callback bouncing and close, as a state machine whose steps are the locked regions
    of the library and the deliveries of its environment. */
module Handle {
  import opened Common

  /** A callback space: the global one or one the user created. */
  datatype Space = Global | UserSpace(id: nat)

  /** Where an operation stands.  `at` is the space its callback runs in, if known. */
  datatype Phase =
    | AtXio                                          // registered, not completed yet
    | Entered(at: Option<Space>)                     // completion callback entered
    | Requeued(on: Space)                            // waiting as a oneshot in a space
    | Decided(at: Option<Space>, perform: bool)      // whether to call the user is decided
    | Called(at: Option<Space>)                      // the user's callback is over
    | Counted(at: Option<Space>, fires: bool)        // counted off its cancel record
    | Finished                                       // its handle reference is dropped

  datatype Op = Op(io: bool, blocking: bool, cancel: Option<nat>, phase: Phase, bounces: nat, calls: nat)

  /** A record waits in a space, and has fired in a space, if known. */
  datatype CancelPhase = Live | Firing | Waiting(on: Space) | Fired(at: Option<Space>)

  datatype Cancel = Cancel(refs: int, perform: bool, blocking: bool, phase: CancelPhase, calls: nat)

  datatype ClosePhase =
    | CloseAtXio | CloseEntered(at: Option<Space>) | CloseRequeued(on: Space)
    | CloseCalled | CloseDropped | CloseFinished

  datatype Close = NotClosed | Closing(blocking: bool, phase: ClosePhase, bounces: nat, calls: nat)

  /** A handle with every operation and cancel request ever accepted on it. */
  datatype State = State(
    space: Space, refs: int, open: bool, pending: seq<nat>,
    ops: seq<Op>, cancels: seq<Cancel>, close: Close, frees: nat)

  function Init(space: Space): State {
    State(space, 1, true, [], [], [], NotClosed, 0)
  }

  // ----- the library's locked regions and decisions -----

  predicate ShouldBounce(space: Space, blocking: bool, at: Option<Space>) {
    && space != Global && at.Some?
    && (if blocking then at.value != Global else at.value != space)
  }

  /** The space a bounced callback is queued in: always the handle's own for reads and writes. */
  function BounceSpace(space: Space, io: bool, blocking: bool): Space {
    if !io && blocking then Global else space
  }

  /** The space a callback belongs in: the global one for blocking calls, else the handle's. */
  function Home(space: Space, blocking: bool): Space { if blocking then Global else space }

  function Insert(s: State, op: Op): State {
    s.(refs := s.refs + 1, pending := [|s.ops|] + s.pending, ops := s.ops + [op])
  }

  function SetOp(s: State, o: nat, op: Op): State
    requires o < |s.ops|
  {
    s.(ops := s.ops[o := op])
  }

  /** Whether the completing operation's user callback is to be called. */
  predicate Performs(s: State, o: nat)
    requires o < |s.ops|
  {
    var op := s.ops[o];
    op.cancel.Some? && op.cancel.value < |s.cancels| && !op.blocking
    ==> s.cancels[op.cancel.value].perform
  }

  function Remove(s: seq<nat>, o: nat): seq<nat> {
    if s == [] then [] else if s[0] == o then s[1..] else [s[0]] + Remove(s[1..], o)
  }

  function Precallback(s: State, o: nat, at: Option<Space>): State
    requires o < |s.ops|
  {
    var op := s.ops[o];
    SetOp(s, o, op.(phase := Decided(at, Performs(s, o))))
      .(pending := if op.cancel.Some? then s.pending else Remove(s.pending, o))
  }

  /** Count the operation off its cancel record; the last one fires it. */
  function CountOff(s: State, o: nat, at: Option<Space>): State
    requires o < |s.ops| && (s.ops[o].cancel.Some? ==> s.ops[o].cancel.value < |s.cancels|)
  {
    var op := s.ops[o];
    if op.cancel.None? then SetOp(s, o, op.(phase := Counted(at, false)))
    else
      var c := op.cancel.value;
      var rec := s.cancels[c];
      var last := rec.refs - 1 == 0;
      SetOp(s, o, op.(phase := Counted(at, last)))
        .(cancels := s.cancels[c := rec.(refs := rec.refs - 1, phase := if last then Firing else rec.phase)])
  }

  /** Drop one reference; the last one frees the handle. */
  function Destroy(s: State): State {
    s.(refs := s.refs - 1, frees := s.frees + (if s.refs - 1 == 0 then 1 else 0))
  }

  predicate Known(pending: seq<nat>, n: nat) {
    forall i :: 0 <= i < |pending| ==> pending[i] < n
  }

  /** Hand all pending operations to cancel record c. */
  function Capture(ops: seq<Op>, pending: seq<nat>, c: nat): (r: seq<Op>)
    requires Known(pending, |ops|)
    ensures |r| == |ops|
    decreases |pending|
  {
    if pending == [] then ops
    else Capture(ops[pending[0] := ops[pending[0]].(cancel := Some(c))], pending[1..], c)
  }

  /** Register a cancel; xioOk says whether XIO accepted the cancel request. */
  function RegisterCancel(s: State, perform: bool, blocking: bool, xioOk: bool): State
    requires Known(s.pending, |s.ops|)
  {
    var c := |s.cancels|;
    if s.open && xioOk && s.pending != [] then
      s.(pending := [], ops := Capture(s.ops, s.pending, c),
         cancels := s.cancels + [Cancel(|s.pending|, perform, blocking, Live, 0)])
    else
      s.(cancels := s.cancels + [Cancel(0, perform, blocking, Waiting(Home(s.space, blocking)), 0)])
  }

  function RegisterClose(s: State, blocking: bool, xioOk: bool): State {
    if !s.open then s
    else if xioOk then s.(open := false, refs := s.refs + 1, close := Closing(blocking, CloseAtXio, 0, 0))
    else s.(open := false)
  }

  /** Fire a cancel record whose count has reached zero, or queue it in the right space. */
  function FireCancel(s: State, c: nat, at: Option<Space>): State
    requires c < |s.cancels|
  {
    var rec := s.cancels[c];
    s.(cancels := s.cancels[c :=
      if ShouldBounce(s.space, rec.blocking, at) then rec.(phase := Waiting(Home(s.space, rec.blocking)))
      else rec.(phase := Fired(at), calls := rec.calls + 1)])
  }

  // ----- the steps -----

  datatype Step =
    // user calls
    | DoRegister(io: bool, blocking: bool)
    | DoClose(blocking: bool, xioOk: bool)
    | DoCancel(perform: bool, blocking: bool, xioOk: bool)
    // an operation's way through its completion callback
    | Complete(o: nat, at: Option<Space>)
    | Bounce(o: nat)
    | RunOneshot(o: nat)
    | Decide(o: nat)
    | CallUser(o: nat)
    | Count(o: nat)
    | Fire(o: nat)
    | Drop(o: nat)
    // the close operation
    | CloseComplete(at: Option<Space>)
    | CloseBounce
    | CloseRunOneshot
    | CloseCall
    | CloseDrop
    | CloseDestroy
    // a queued cancel callback
    | RunKickout(c: nat)

  predicate IsUserCall(step: Step) { step.DoRegister? || step.DoClose? || step.DoCancel? }

  predicate Enabled(s: State, step: Step) {
    match step
    case DoRegister(io, blocking) => s.frees == 0 && s.open && (io ==> !blocking)
    case DoClose(_, _) => s.frees == 0
    case DoCancel(_, _, _) => s.frees == 0
    case Complete(o, _) => o < |s.ops| && s.ops[o].phase.AtXio?
    case Bounce(o) =>
      o < |s.ops| && s.ops[o].phase.Entered? && ShouldBounce(s.space, s.ops[o].blocking, s.ops[o].phase.at)
    case RunOneshot(o) => o < |s.ops| && s.ops[o].phase.Requeued?
    case Decide(o) =>
      o < |s.ops| && s.ops[o].phase.Entered? && !ShouldBounce(s.space, s.ops[o].blocking, s.ops[o].phase.at)
    case CallUser(o) => o < |s.ops| && s.ops[o].phase.Decided?
    case Count(o) => o < |s.ops| && s.ops[o].phase.Called?
    case Fire(o) => o < |s.ops| && s.ops[o].phase.Counted? && s.ops[o].phase.fires
    case Drop(o) => o < |s.ops| && s.ops[o].phase.Counted? && !s.ops[o].phase.fires
    case CloseComplete(_) => s.close.Closing? && s.close.phase.CloseAtXio?
    case CloseBounce =>
      s.close.Closing? && s.close.phase.CloseEntered? && ShouldBounce(s.space, s.close.blocking, s.close.phase.at)
    case CloseRunOneshot => s.close.Closing? && s.close.phase.CloseRequeued?
    case CloseCall =>
      s.close.Closing? && s.close.phase.CloseEntered? && !ShouldBounce(s.space, s.close.blocking, s.close.phase.at)
    case CloseDrop => s.close.Closing? && s.close.phase.CloseCalled?
    case CloseDestroy => s.close.Closing? && s.close.phase.CloseDropped?
    case RunKickout(c) => c < |s.cancels| && s.cancels[c].phase.Waiting?
  }

  predicate CaptureKnown(op: Op, n: nat) {
    && (op.cancel.Some? ==> op.cancel.value < n)
    && (op.phase.Counted? && op.phase.fires ==> op.cancel.Some?)
  }

  /** Identifiers stored in the state refer to something. */
  predicate WellFormed(s: State) {
    && Known(s.pending, |s.ops|)
    && forall o :: 0 <= o < |s.ops| ==> CaptureKnown(s.ops[o], |s.cancels|)
  }

  function Apply(s: State, step: Step): State
    requires WellFormed(s) && Enabled(s, step)
  {
    match step
    case DoRegister(io, blocking) => Insert(s, Op(io, blocking, None, AtXio, 0, 0))
    case DoClose(blocking, xioOk) => RegisterClose(s, blocking, xioOk)
    case DoCancel(perform, blocking, xioOk) => RegisterCancel(s, perform, blocking, xioOk)
    case Complete(o, at) => SetOp(s, o, s.ops[o].(phase := Entered(at)))
    case Bounce(o) =>
      var op := s.ops[o];
      SetOp(s, o, op.(phase := Requeued(BounceSpace(s.space, op.io, op.blocking)), bounces := op.bounces + 1))
    case RunOneshot(o) => SetOp(s, o, s.ops[o].(phase := Entered(Some(s.ops[o].phase.on))))
    case Decide(o) => Precallback(s, o, s.ops[o].phase.at)
    case CallUser(o) =>
      var op := s.ops[o];
      SetOp(s, o, op.(phase := Called(op.phase.at), calls := op.calls + (if op.phase.perform then 1 else 0)))
    case Count(o) => CountOff(s, o, s.ops[o].phase.at)
    case Fire(o) =>
      var op := s.ops[o];
      FireCancel(SetOp(s, o, op.(phase := Counted(op.phase.at, false))), op.cancel.value, op.phase.at)
    case Drop(o) => Destroy(SetOp(s, o, s.ops[o].(phase := Finished)))
    case CloseComplete(at) => s.(close := s.close.(phase := CloseEntered(at)))
    case CloseBounce =>
      s.(close := s.close.(phase := CloseRequeued(BounceSpace(s.space, false, s.close.blocking)),
                           bounces := s.close.bounces + 1))
    case CloseRunOneshot => s.(close := s.close.(phase := CloseEntered(Some(s.close.phase.on))))
    case CloseCall => s.(close := s.close.(phase := CloseCalled, calls := s.close.calls + 1))
    case CloseDrop => s.(close := s.close.(phase := CloseDropped), refs := s.refs - 1)
    case CloseDestroy => Destroy(s.(close := s.close.(phase := CloseFinished)))
    case RunKickout(c) =>
      var rec := s.cancels[c];
      s.(cancels := s.cancels[c := rec.(phase := Fired(Some(rec.phase.on)), calls := rec.calls + 1)])
  }

  // ----- counting -----

  function Sum<T>(s: seq<T>, f: T -> nat): nat {
    if s == [] then 0 else f(s[0]) + Sum(s[1..], f)
  }

  lemma {:induction false} SumUpdate<T>(s: seq<T>, i: nat, x: T, f: T -> nat)
    requires i < |s|
    ensures Sum(s[i := x], f) == Sum(s, f) - f(s[i]) + f(x)
  {
    if i == 0 {
      assert s[i := x][1..] == s[1..];
    } else {
      SumUpdate(s[1..], i - 1, x, f);
      assert s[i := x][1..] == s[1..][i - 1 := x];
    }
  }

  lemma {:induction false} SumAppend<T>(s: seq<T>, x: T, f: T -> nat)
    ensures Sum(s + [x], f) == Sum(s, f) + f(x)
  {
    if s == [] {
    } else {
      SumAppend(s[1..], x, f);
      assert (s + [x])[1..] == s[1..] + [x];
    }
  }

  /** A count is positive when one of the elements contributes. */
  lemma {:induction false} SumMember<T>(s: seq<T>, i: nat, f: T -> nat)
    requires i < |s|
    ensures f(s[i]) <= Sum(s, f)
  {
    if i > 0 { SumMember(s[1..], i - 1, f); }
  }

  lemma {:induction false} SumZero<T>(s: seq<T>, f: T -> nat)
    requires forall i :: 0 <= i < |s| ==> f(s[i]) == 0
    ensures Sum(s, f) == 0
  {
    if s != [] { SumZero(s[1..], f); }
  }

  /** A reference to the handle held by an operation. */
  function Holds(op: Op): nat { if op.phase.Finished? then 0 else 1 }

  predicate NotCounted(op: Op) { !op.phase.Counted? && !op.phase.Finished? }

  function OwesTo(op: Op, c: nat): nat { if op.cancel == Some(c) && NotCounted(op) then 1 else 0 }

  function FiresFor(op: Op, c: nat): nat {
    if op.cancel == Some(c) && op.phase.Counted? && op.phase.fires then 1 else 0
  }

  ghost function Owes(c: nat): Op -> nat { op => OwesTo(op, c) }

  ghost function Fires(c: nat): Op -> nat { op => FiresFor(op, c) }

  // ----- the invariant -----

  /** References held for the owner and a registered close. */
  function CloseRefs(close: Close): nat {
    match close
    case NotClosed => 1
    case Closing(_, phase, _, _) =>
      match phase
      case CloseDropped => 1
      case CloseFinished => 0
      case _ => 2
  }

  /** refs is the owner's reference, the close's and one per unfinished operation. */
  ghost predicate RefsInv(s: State) {
    && s.refs == CloseRefs(s.close) + Sum(s.ops, Holds)
    && s.frees == (if s.refs == 0 then 1 else 0)
    && (s.close.Closing? ==> !s.open)
  }

  predicate BeforeDecision(op: Op) { op.phase.AtXio? || op.phase.Entered? || op.phase.Requeued? }

  predicate NoDuplicates(s: seq<nat>) { forall i, j :: 0 <= i < j < |s| ==> s[i] != s[j] }

  /** The pending list is exactly the operations that neither a cancel nor their own
      completion has claimed. */
  ghost predicate PendingInv(pending: seq<nat>, ops: seq<Op>) {
    && NoDuplicates(pending)
    && forall o :: 0 <= o < |ops| ==> (o in pending <==> ops[o].cancel.None? && BeforeDecision(ops[o]))
  }

  /** The record of cancel request c counts the captured operations not yet through. */
  ghost predicate CancelOk(ops: seq<Op>, rec: Cancel, c: nat) {
    && rec.refs == Sum(ops, Owes(c))
    && (rec.phase.Live? <==> rec.refs > 0)
    && Sum(ops, Fires(c)) == (if rec.phase.Firing? then 1 else 0)
    && rec.calls == (if rec.phase.Fired? then 1 else 0)
  }

  ghost predicate CancelInv(ops: seq<Op>, cancels: seq<Cancel>) {
    forall c :: 0 <= c < |cancels| ==> CancelOk(ops, cancels[c], c)
  }

  /** The one reason not to call the user back. */
  predicate SkipAllowed(op: Op, cancels: seq<Cancel>) {
    && !op.blocking && op.cancel.Some? && op.cancel.value < |cancels|
    && !cancels[op.cancel.value].perform
  }

  predicate OpOk(op: Op, space: Space, cancels: seq<Cancel>) {
    && (op.io ==> !op.blocking)
    && (match op.phase
        case AtXio => op.calls == 0 && op.bounces == 0
        case Entered(at) =>
          op.calls == 0 && (op.bounces == 0 || (op.bounces == 1 && at == Some(BounceSpace(space, op.io, op.blocking))))
        case Requeued(on) => op.calls == 0 && op.bounces == 1 && on == BounceSpace(space, op.io, op.blocking)
        case Decided(_, perform) => op.calls == 0 && op.bounces <= 1 && (perform <==> !SkipAllowed(op, cancels))
        case _ => op.bounces <= 1 && op.calls == (if SkipAllowed(op, cancels) then 0 else 1))
  }

  predicate CloseOk(close: Close, space: Space) {
    close.Closing? ==>
      match close.phase
      case CloseAtXio => close.calls == 0 && close.bounces == 0
      case CloseEntered(at) =>
        close.calls == 0 &&
        (close.bounces == 0 || (close.bounces == 1 && at == Some(BounceSpace(space, false, close.blocking))))
      case CloseRequeued(on) =>
        close.calls == 0 && close.bounces == 1 && on == BounceSpace(space, false, close.blocking)
      case _ => close.calls == 1 && close.bounces <= 1
  }

  ghost predicate CallInv(ops: seq<Op>, space: Space, cancels: seq<Cancel>) {
    forall o :: 0 <= o < |ops| ==> OpOk(ops[o], space, cancels)
  }

  ghost predicate Inv(s: State) {
    && WellFormed(s) && RefsInv(s) && PendingInv(s.pending, s.ops) && CancelInv(s.ops, s.cancels)
    && CallInv(s.ops, s.space, s.cancels) && CloseOk(s.close, s.space)
  }

  lemma InitInv(space: Space)
    ensures Inv(Init(space))
  {
  }

  // ----- every step keeps the invariant -----

  /** Changing one operation without touching what the counts see. */
  lemma QuietUpdate(ops: seq<Op>, cancels: seq<Cancel>, o: nat, op: Op)
    requires CancelInv(ops, cancels) && o < |ops|
    requires op.cancel == ops[o].cancel && Holds(op) == Holds(ops[o]) && NotCounted(op) == NotCounted(ops[o])
    requires (op.phase.Counted? && op.phase.fires) == (ops[o].phase.Counted? && ops[o].phase.fires)
    ensures CancelInv(ops[o := op], cancels) && Sum(ops[o := op], Holds) == Sum(ops, Holds)
  {
    SumUpdate(ops, o, op, Holds);
    forall c | 0 <= c < |cancels| ensures CancelOk(ops[o := op], cancels[c], c) {
      SumUpdate(ops, o, op, Owes(c));
      SumUpdate(ops, o, op, Fires(c));
    }
  }

  /** Cancel records never change their callback policy. */
  ghost predicate SamePolicy(a: seq<Cancel>, b: seq<Cancel>) {
    |a| <= |b| && forall c :: 0 <= c < |a| ==> b[c].perform == a[c].perform
  }

  lemma CallUpdate(ops: seq<Op>, space: Space, a: seq<Cancel>, b: seq<Cancel>, o: nat, op: Op)
    requires CallInv(ops, space, a) && SamePolicy(a, b) && |a| == |b| && o < |ops| && OpOk(op, space, b)
    ensures CallInv(ops[o := op], space, b)
  {
  }

  lemma PendingUpdate(pending: seq<nat>, ops: seq<Op>, o: nat, op: Op)
    requires PendingInv(pending, ops) && o < |ops|
    requires op.cancel == ops[o].cancel && BeforeDecision(op) == BeforeDecision(ops[o])
    ensures PendingInv(pending, ops[o := op])
  {
  }

  lemma AppendOp(ops: seq<Op>, cancels: seq<Cancel>, op: Op)
    requires CancelInv(ops, cancels) && op.cancel.None? && !op.phase.Finished?
    ensures CancelInv(ops + [op], cancels) && Sum(ops + [op], Holds) == Sum(ops, Holds) + 1
  {
    SumAppend(ops, op, Holds);
    forall c | 0 <= c < |cancels| ensures CancelOk(ops + [op], cancels[c], c) {
      SumAppend(ops, op, Owes(c));
      SumAppend(ops, op, Fires(c));
    }
  }

  lemma RegisterKeeps(s: State, io: bool, blocking: bool)
    requires Inv(s) && Enabled(s, DoRegister(io, blocking))
    ensures Inv(Apply(s, DoRegister(io, blocking)))
  {
    AppendOp(s.ops, s.cancels, Op(io, blocking, None, AtXio, 0, 0));
    assert |s.ops| !in s.pending;
  }

  lemma CloseKeeps(s: State, step: Step)
    requires Inv(s) && Enabled(s, step)
    requires step.DoClose? || step.CloseComplete? || step.CloseBounce? || step.CloseRunOneshot? || step.CloseCall?
          || step.CloseDrop? || step.CloseDestroy?
    ensures Inv(Apply(s, step))
  {
  }

  /** Completion, bouncing and the user's callback. */
  lemma PhaseKeeps(s: State, step: Step)
    requires Inv(s) && Enabled(s, step)
    requires step.Complete? || step.Bounce? || step.RunOneshot? || step.CallUser?
    ensures Inv(Apply(s, step))
  {
    var op := Apply(s, step).ops[step.o];
    QuietUpdate(s.ops, s.cancels, step.o, op);
    CallUpdate(s.ops, s.space, s.cancels, s.cancels, step.o, op);
    PendingUpdate(s.pending, s.ops, step.o, op);
  }

  lemma {:induction false} RemoveExact(s: seq<nat>, o: nat)
    requires NoDuplicates(s)
    ensures NoDuplicates(Remove(s, o))
    ensures forall x :: x in Remove(s, o) <==> x in s && x != o
  {
    if s != [] && s[0] != o {
      RemoveExact(s[1..], o);
      assert s == [s[0]] + s[1..];
      var r := Remove(s[1..], o);
      assert s[0] !in r;
      assert NoDuplicates([s[0]] + r) by { assert forall i :: 0 <= i < |r| ==> r[i] in r; }
    }
  }

  lemma DecidePending(pending: seq<nat>, ops: seq<Op>, o: nat, op: Op)
    requires PendingInv(pending, ops) && Known(pending, |ops|) && o < |ops|
    requires op.cancel == ops[o].cancel && op.phase.Decided?
    ensures var p := if op.cancel.Some? then pending else Remove(pending, o);
      PendingInv(p, ops[o := op]) && Known(p, |ops|)
  {
    RemoveExact(pending, o);
    var p := if op.cancel.Some? then pending else Remove(pending, o);
    assert forall i :: 0 <= i < |p| ==> p[i] in pending;
  }

  lemma DecideKeeps(s: State, o: nat)
    requires Inv(s) && Enabled(s, Decide(o))
    ensures Inv(Apply(s, Decide(o)))
  {
    var op := Apply(s, Decide(o)).ops[o];
    QuietUpdate(s.ops, s.cancels, o, op);
    CallUpdate(s.ops, s.space, s.cancels, s.cancels, o, op);
    DecidePending(s.pending, s.ops, o, op);
  }

  /** Counting operation o off record c. */
  lemma CountCancels(ops: seq<Op>, cancels: seq<Cancel>, o: nat, c: nat, op: Op, rec: Cancel)
    requires CancelInv(ops, cancels) && o < |ops| && c < |cancels|
    requires ops[o].cancel == op.cancel == Some(c) && NotCounted(ops[o])
    requires op.phase.Counted? && op.phase.fires == (cancels[c].refs - 1 == 0)
    requires rec == cancels[c].(refs := cancels[c].refs - 1,
                                phase := if op.phase.fires then Firing else cancels[c].phase)
    ensures CancelInv(ops[o := op], cancels[c := rec])
  {
    var cancels' := cancels[c := rec];
    forall d | 0 <= d < |cancels| ensures CancelOk(ops[o := op], cancels'[d], d) {
      SumMember(ops, o, Owes(d));
      SumUpdate(ops, o, op, Owes(d));
      SumUpdate(ops, o, op, Fires(d));
    }
  }

  lemma CountKeeps(s: State, o: nat)
    requires Inv(s) && Enabled(s, Count(o))
    ensures Inv(Apply(s, Count(o)))
  {
    var t := Apply(s, Count(o));
    SumUpdate(s.ops, o, t.ops[o], Holds);
    if s.ops[o].cancel.None? {
      UncapturedUpdate(s.ops, s.cancels, o, t.ops[o]);
    } else {
      var c := s.ops[o].cancel.value;
      CountCancels(s.ops, s.cancels, o, c, t.ops[o], t.cancels[c]);
    }
    CallUpdate(s.ops, s.space, s.cancels, t.cancels, o, t.ops[o]);
    PendingUpdate(s.pending, s.ops, o, t.ops[o]);
  }

  lemma UncapturedUpdate(ops: seq<Op>, cancels: seq<Cancel>, o: nat, op: Op)
    requires CancelInv(ops, cancels) && o < |ops| && ops[o].cancel.None? && op.cancel.None?
    ensures CancelInv(ops[o := op], cancels)
  {
    forall c | 0 <= c < |cancels| ensures CancelOk(ops[o := op], cancels[c], c) {
      SumUpdate(ops, o, op, Owes(c));
      SumUpdate(ops, o, op, Fires(c));
    }
  }

  lemma FireCancels(ops: seq<Op>, cancels: seq<Cancel>, o: nat, c: nat, op: Op, rec: Cancel)
    requires CancelInv(ops, cancels) && o < |ops| && c < |cancels|
    requires ops[o].cancel == op.cancel == Some(c)
    requires ops[o].phase.Counted? && ops[o].phase.fires && op.phase.Counted? && !op.phase.fires
    requires rec == cancels[c].(phase := rec.phase, calls := cancels[c].calls + (if rec.phase.Fired? then 1 else 0))
    requires rec.phase.Waiting? || rec.phase.Fired?
    ensures CancelInv(ops[o := op], cancels[c := rec])
  {
    var cancels' := cancels[c := rec];
    forall d | 0 <= d < |cancels| ensures CancelOk(ops[o := op], cancels'[d], d) {
      SumMember(ops, o, Fires(d));
      SumUpdate(ops, o, op, Owes(d));
      SumUpdate(ops, o, op, Fires(d));
    }
  }

  lemma FireKeeps(s: State, o: nat)
    requires Inv(s) && Enabled(s, Fire(o))
    ensures Inv(Apply(s, Fire(o)))
  {
    var t, c := Apply(s, Fire(o)), s.ops[o].cancel.value;
    SumUpdate(s.ops, o, t.ops[o], Holds);
    FireCancels(s.ops, s.cancels, o, c, t.ops[o], t.cancels[c]);
    CallUpdate(s.ops, s.space, s.cancels, t.cancels, o, t.ops[o]);
    PendingUpdate(s.pending, s.ops, o, t.ops[o]);
  }

  lemma DropKeeps(s: State, o: nat)
    requires Inv(s) && Enabled(s, Drop(o))
    ensures Inv(Apply(s, Drop(o)))
  {
    var t := Apply(s, Drop(o));
    SumMember(s.ops, o, Holds);
    SumUpdate(s.ops, o, t.ops[o], Holds);
    CallUpdate(s.ops, s.space, s.cancels, s.cancels, o, t.ops[o]);
    PendingUpdate(s.pending, s.ops, o, t.ops[o]);
    forall c | 0 <= c < |t.cancels| ensures CancelOk(t.ops, t.cancels[c], c) {
      SumUpdate(s.ops, o, t.ops[o], Owes(c));
      SumUpdate(s.ops, o, t.ops[o], Fires(c));
    }
  }

  lemma KickoutKeeps(s: State, c: nat)
    requires Inv(s) && Enabled(s, RunKickout(c))
    ensures Inv(Apply(s, RunKickout(c)))
  {
  }

  // A cancel captures exactly the pending operations.

  ghost predicate Capturable(ops: seq<Op>, pending: seq<nat>) {
    && NoDuplicates(pending) && Known(pending, |ops|)
    && forall i :: 0 <= i < |pending| ==> ops[pending[i]].cancel.None? && BeforeDecision(ops[pending[i]])
  }

  lemma {:induction false} CaptureAt(ops: seq<Op>, pending: seq<nat>, c: nat, o: nat)
    requires Capturable(ops, pending) && o < |ops|
    ensures Capture(ops, pending, c)[o] == if o in pending then ops[o].(cancel := Some(c)) else ops[o]
    decreases |pending|
  {
    if pending != [] {
      var p := pending[0];
      CaptureAt(ops[p := ops[p].(cancel := Some(c))], pending[1..], c, o);
      assert pending == [p] + pending[1..];
    }
  }

  /** The new record owes one count per captured operation; the other counts stand. */
  lemma {:induction false} CaptureCounts(ops: seq<Op>, pending: seq<nat>, c: nat, d: nat)
    requires Capturable(ops, pending)
    ensures var r := Capture(ops, pending, c);
      && Sum(r, Holds) == Sum(ops, Holds)
      && Sum(r, Owes(d)) == Sum(ops, Owes(d)) + (if d == c then |pending| else 0)
      && Sum(r, Fires(d)) == Sum(ops, Fires(d))
    decreases |pending|
  {
    if pending != [] {
      var p := pending[0];
      var op := ops[p].(cancel := Some(c));
      CaptureCounts(ops[p := op], pending[1..], c, d);
      SumUpdate(ops, p, op, Holds);
      SumUpdate(ops, p, op, Owes(d));
      SumUpdate(ops, p, op, Fires(d));
    }
  }

  lemma FreshRecord(ops: seq<Op>, c: nat)
    requires forall o :: 0 <= o < |ops| ==> CaptureKnown(ops[o], c)
    ensures Sum(ops, Owes(c)) == 0 && Sum(ops, Fires(c)) == 0
  {
    SumZero(ops, Owes(c));
    SumZero(ops, Fires(c));
  }

  lemma CaptureAll(s: State, c: nat)
    requires Inv(s) && c == |s.cancels|
    ensures Capturable(s.ops, s.pending)
    ensures var r := Capture(s.ops, s.pending, c);
      forall o :: 0 <= o < |s.ops| ==> r[o] == if o in s.pending then s.ops[o].(cancel := Some(c)) else s.ops[o]
  {
    assert forall i :: 0 <= i < |s.pending| ==> s.pending[i] in s.pending;
    forall o | 0 <= o < |s.ops|
      ensures Capture(s.ops, s.pending, c)[o] == if o in s.pending then s.ops[o].(cancel := Some(c)) else s.ops[o]
    {
      CaptureAt(s.ops, s.pending, c, o);
    }
  }

  lemma CaptureRecords(s: State, rec: Cancel)
    requires Inv(s) && s.pending != [] && rec.refs == |s.pending| && rec.phase.Live? && rec.calls == 0
    ensures CancelInv(Capture(s.ops, s.pending, |s.cancels|), s.cancels + [rec])
    ensures Sum(Capture(s.ops, s.pending, |s.cancels|), Holds) == Sum(s.ops, Holds)
  {
    var c := |s.cancels|;
    var r, recs := Capture(s.ops, s.pending, c), s.cancels + [rec];
    FreshRecord(s.ops, c);
    CaptureAll(s, c);
    forall d | 0 <= d < |recs| ensures CancelOk(r, recs[d], d) {
      CaptureCounts(s.ops, s.pending, c, d);
    }
    CaptureCounts(s.ops, s.pending, c, c);
  }

  lemma CaptureShape(ops: seq<Op>, r: seq<Op>, pending: seq<nat>, space: Space, a: seq<Cancel>, b: seq<Cancel>)
    requires |r| == |ops|
    requires forall o :: 0 <= o < |ops| ==> r[o] == if o in pending then ops[o].(cancel := Some(|a|)) else ops[o]
    requires PendingInv(pending, ops) && CallInv(ops, space, a) && SamePolicy(a, b) && |b| == |a| + 1
    requires forall o :: 0 <= o < |ops| ==> CaptureKnown(ops[o], |a|)
    ensures PendingInv([], r) && CallInv(r, space, b)
    ensures forall o :: 0 <= o < |r| ==> CaptureKnown(r[o], |b|)
  {
    forall o | 0 <= o < |r| ensures OpOk(r[o], space, b) && CaptureKnown(r[o], |b|) {
    }
  }

  lemma CaptureKeeps(s: State, rec: Cancel)
    requires Inv(s) && s.pending != [] && rec.refs == |s.pending| && rec.phase.Live? && rec.calls == 0
    ensures Inv(s.(pending := [], ops := Capture(s.ops, s.pending, |s.cancels|), cancels := s.cancels + [rec]))
  {
    var r := Capture(s.ops, s.pending, |s.cancels|);
    CaptureAll(s, |s.cancels|);
    CaptureRecords(s, rec);
    CaptureShape(s.ops, r, s.pending, s.space, s.cancels, s.cancels + [rec]);
  }

  lemma CancelKeeps(s: State, perform: bool, blocking: bool, xioOk: bool)
    requires Inv(s) && Enabled(s, DoCancel(perform, blocking, xioOk))
    ensures Inv(Apply(s, DoCancel(perform, blocking, xioOk)))
  {
    if s.open && xioOk && s.pending != [] {
      CaptureKeeps(s, Cancel(|s.pending|, perform, blocking, Live, 0));
    } else {
      WaitKeeps(s, Cancel(0, perform, blocking, Waiting(Home(s.space, blocking)), 0));
    }
  }

  /** A cancel that captures nothing is queued at once. */
  lemma WaitKeeps(s: State, rec: Cancel)
    requires Inv(s) && rec.refs == 0 && rec.phase.Waiting? && rec.calls == 0
    ensures Inv(s.(cancels := s.cancels + [rec]))
  {
    FreshRecord(s.ops, |s.cancels|);
    forall o | 0 <= o < |s.ops| ensures OpOk(s.ops[o], s.space, s.cancels + [rec]) {
    }
  }

  /** Every step, taken in any order, keeps the invariant. */
  lemma StepKeeps(s: State, step: Step)
    requires Inv(s) && Enabled(s, step)
    ensures Inv(Apply(s, step))
  {
    match step
    case DoRegister(io, blocking) => RegisterKeeps(s, io, blocking);
    case DoCancel(perform, blocking, xioOk) => CancelKeeps(s, perform, blocking, xioOk);
    case Decide(o) => DecideKeeps(s, o);
    case Count(o) => CountKeeps(s, o);
    case Fire(o) => FireKeeps(s, o);
    case Drop(o) => DropKeeps(s, o);
    case RunKickout(c) => KickoutKeeps(s, c);
    case Complete(_, _) => PhaseKeeps(s, step);
    case Bounce(_) => PhaseKeeps(s, step);
    case RunOneshot(_) => PhaseKeeps(s, step);
    case CallUser(_) => PhaseKeeps(s, step);
    case _ => CloseKeeps(s, step);
  }

  // ----- whole runs -----

  ghost predicate IsRun(s: State, steps: seq<Step>)
    decreases |steps|
  {
    steps != [] ==> WellFormed(s) && Enabled(s, steps[0]) && IsRun(Apply(s, steps[0]), steps[1..])
  }

  ghost function Exec(s: State, steps: seq<Step>): State
    requires IsRun(s, steps)
    decreases |steps|
  {
    if steps == [] then s else Exec(Apply(s, steps[0]), steps[1..])
  }

  lemma {:induction false} RunKeeps(s: State, steps: seq<Step>)
    requires Inv(s) && IsRun(s, steps)
    ensures Inv(Exec(s, steps))
    decreases |steps|
  {
    if steps != [] {
      StepKeeps(s, steps[0]);
      RunKeeps(Apply(s, steps[0]), steps[1..]);
    }
  }

  /** The state after some interleaving of user calls, completions and callbacks. */
  ghost predicate Reachable(s: State) {
    exists space, steps :: IsRun(Init(space), steps) && Exec(Init(space), steps) == s
  }

  lemma ReachableInv(s: State)
    requires Reachable(s)
    ensures Inv(s)
  {
    var space, steps :| IsRun(Init(space), steps) && Exec(Init(space), steps) == s;
    RunKeeps(Init(space), steps);
  }

  lemma PendingHead(s: State)
    requires Inv(s)
    ensures s.pending != [] ==> BeforeDecision(s.ops[s.pending[0]])
  {
    if s.pending != [] { assert s.pending[0] in s.pending; }
  }

  /** The handle is freed at most once; it has been freed exactly when the close has been
      through, its callback included, and every operation has finished. */
  lemma FreedOnce(s: State)
    requires Reachable(s)
    ensures s.frees <= 1
    ensures s.frees == 1 <==>
      && s.close.Closing? && s.close.phase.CloseFinished?
      && forall o :: 0 <= o < |s.ops| ==> s.ops[o].phase.Finished?
    ensures s.frees == 1 ==> s.close.calls == 1 && s.pending == []
  {
    ReachableInv(s);
    PendingHead(s);
    if s.frees == 1 {
      forall o | 0 <= o < |s.ops| ensures s.ops[o].phase.Finished? {
        SumMember(s.ops, o, Holds);
      }
    } else if s.close.Closing? && s.close.phase.CloseFinished? &&
              forall o :: 0 <= o < |s.ops| ==> s.ops[o].phase.Finished? {
      SumZero(s.ops, Holds);
    }
  }

  /** No step but a queued cancel callback, which does not look at the handle, runs after the free. */
  lemma NoUseAfterFree(s: State, step: Step)
    requires Reachable(s) && Enabled(s, step) && !step.RunKickout?
    ensures s.frees == 0
  {
    FreedOnce(s);
  }

  /** An operation that completes uncancelled is found in the pending list; a captured one
      finds its cancel record alive. */
  lemma CompletionFinds(s: State, o: nat)
    requires Reachable(s) && o < |s.ops| && BeforeDecision(s.ops[o])
    ensures match s.ops[o].cancel
      case None => o in s.pending
      case Some(c) => c < |s.cancels| && s.cancels[c].phase.Live? && s.cancels[c].refs > 0
  {
    ReachableInv(s);
    if s.ops[o].cancel.Some? {
      SumMember(s.ops, o, Owes(s.ops[o].cancel.value));
    }
  }

  /** A cancel's callback runs at most once, and only when every operation it captured is through. */
  lemma CancelFiresLast(s: State, c: nat)
    requires Reachable(s) && c < |s.cancels|
    ensures s.cancels[c].refs == Sum(s.ops, Owes(c))
    ensures s.cancels[c].calls <= 1
    ensures !s.cancels[c].phase.Live? ==>
      forall o :: 0 <= o < |s.ops| && s.ops[o].cancel == Some(c) ==> s.ops[o].phase.Counted? || s.ops[o].phase.Finished?
  {
    ReachableInv(s);
    if !s.cancels[c].phase.Live? {
      forall o | 0 <= o < |s.ops| && s.ops[o].cancel == Some(c) ensures !NotCounted(s.ops[o]) {
        SumMember(s.ops, o, Owes(c));
      }
    }
  }

  /** A capture is never overwritten, and an operation is captured only while pending. */
  lemma CaptureIsFinal(s: State, step: Step, o: nat)
    requires Reachable(s) && WellFormed(s) && Enabled(s, step) && o < |s.ops|
    ensures var t := Apply(s, step);
      && o < |t.ops|
      && (s.ops[o].cancel.Some? ==> t.ops[o].cancel == s.ops[o].cancel)
      && (t.ops[o].cancel != s.ops[o].cancel ==> o in s.pending && t.ops[o].cancel == Some(|s.cancels|))
  {
    if step.DoCancel? {
      ReachableInv(s);
      CancelIsFinal(s, step.perform, step.blocking, step.xioOk, o);
    } else {
      CaptureStays(s, step, o);
    }
  }

  /** Only a cancel captures. */
  lemma CaptureStays(s: State, step: Step, o: nat)
    requires WellFormed(s) && Enabled(s, step) && o < |s.ops| && !step.DoCancel?
    ensures var t := Apply(s, step); o < |t.ops| && t.ops[o].cancel == s.ops[o].cancel
  {
  }

  lemma CancelIsFinal(s: State, perform: bool, blocking: bool, xioOk: bool, o: nat)
    requires Inv(s) && o < |s.ops|
    ensures var t := RegisterCancel(s, perform, blocking, xioOk);
      && o < |t.ops|
      && (s.ops[o].cancel.Some? ==> t.ops[o].cancel == s.ops[o].cancel)
      && (t.ops[o].cancel != s.ops[o].cancel ==> o in s.pending && t.ops[o].cancel == Some(|s.cancels|))
  {
    if s.open && xioOk && s.pending != [] { CaptureAll(s, |s.cancels|); }
  }

  /** Each operation's user callback runs at most once; past that point it has run unless, and only
      unless, the operation is non-blocking and was captured by a cancel that suppresses callbacks.
      Each completion is requeued at most once. */
  lemma CallbackOnce(s: State, o: nat)
    requires Reachable(s) && o < |s.ops|
    ensures var op := s.ops[o];
      && op.calls <= 1 && op.bounces <= 1
      && (op.calls == 1 ==> !BeforeDecision(op) && !op.phase.Decided?)
      && (!BeforeDecision(op) && !op.phase.Decided? ==> (op.calls == 0 <==> SkipAllowed(op, s.cancels)))
  {
    ReachableInv(s);
  }

  /** What was asked for is kept: no step changes what an operation or a cancel was registered as,
      and registering records it as it was asked for. */
  lemma RequestsKept(s: State, step: Step)
    requires WellFormed(s) && Enabled(s, step)
    ensures var t := Apply(s, step);
      && |t.ops| >= |s.ops| && |t.cancels| >= |s.cancels|
      && (forall o :: 0 <= o < |s.ops| ==> t.ops[o].io == s.ops[o].io && t.ops[o].blocking == s.ops[o].blocking)
      && (forall c :: 0 <= c < |s.cancels| ==>
           t.cancels[c].perform == s.cancels[c].perform && t.cancels[c].blocking == s.cancels[c].blocking)
      && (step.DoRegister? ==>
           |t.ops| == |s.ops| + 1 && t.ops[|s.ops|].io == step.io && t.ops[|s.ops|].blocking == step.blocking &&
           |s.ops| in t.pending)
  {
    if step.DoCancel? && s.open && step.xioOk { CaptureKeepsRequests(s.ops, s.pending, |s.cancels|); }
    if step.DoRegister? { assert Apply(s, step).pending[0] == |s.ops|; }
  }

  lemma {:induction false} CaptureKeepsRequests(ops: seq<Op>, pending: seq<nat>, c: nat)
    requires Known(pending, |ops|)
    ensures var r := Capture(ops, pending, c);
      forall o :: 0 <= o < |ops| ==> r[o].io == ops[o].io && r[o].blocking == ops[o].blocking
    decreases |pending|
  {
    if pending != [] {
      CaptureKeepsRequests(ops[pending[0] := ops[pending[0]].(cancel := Some(c))], pending[1..], c);
    }
  }

  /** After any attempt to close, successful or not, nothing can be registered or closed again. */
  lemma CloseIsFinal(s: State, blocking: bool, xioOk: bool)
    ensures var t := RegisterClose(s, blocking, xioOk);
      !t.open && (forall io, b :: !Enabled(t, DoRegister(io, b))) && (forall b, x :: RegisterClose(t, b, x) == t)
    ensures RegisterClose(s, blocking, xioOk).refs == s.refs + if s.open && xioOk then 1 else 0
    ensures RegisterClose(s, blocking, xioOk).close ==
      if s.open && xioOk then Closing(blocking, CloseAtXio, 0, 0) else s.close
  {
  }

  // ----- where callbacks run -----

  /** A callback is where it belongs, as far as the space it runs in is known. In a handle of the
      global space it may run anywhere. */
  predicate AtHome(space: Space, blocking: bool, at: Option<Space>) {
    space == Global || at.None? || at.value == Home(space, blocking)
  }

  /** A callback is requeued exactly when it is known not to be where it belongs. */
  lemma BounceExact(space: Space, blocking: bool, at: Option<Space>)
    ensures ShouldBounce(space, blocking, at) <==> !AtHome(space, blocking, at)
  {
  }

  /** The close callback runs where it belongs, and is requeued to where it belongs. */
  lemma CloseAtHome(s: State)
    requires WellFormed(s)
    ensures Enabled(s, CloseCall) ==> AtHome(s.space, s.close.blocking, s.close.phase.at)
    ensures Enabled(s, CloseBounce) ==>
      Apply(s, CloseBounce).close.phase == CloseRequeued(Home(s.space, s.close.blocking))
  {
  }

  predicate OpAtHome(op: Op, space: Space) {
    match op.phase
    case Decided(at, _) => AtHome(space, op.blocking, at)
    case Called(at) => AtHome(space, op.blocking, at)
    case Counted(at, _) => AtHome(space, op.blocking, at)
    case _ => true
  }

  predicate CancelAtHome(rec: Cancel, space: Space) {
    match rec.phase
    case Waiting(on) => on == Home(space, rec.blocking)
    case Fired(at) => AtHome(space, rec.blocking, at)
    case _ => true
  }

  ghost predicate AllAtHome(s: State) {
    && (forall o :: 0 <= o < |s.ops| ==> OpAtHome(s.ops[o], s.space))
    && (forall c :: 0 <= c < |s.cancels| ==> CancelAtHome(s.cancels[c], s.space))
  }

  lemma CancelKeepsHome(s: State, perform: bool, blocking: bool, xioOk: bool)
    requires Inv(s) && AllAtHome(s)
    ensures AllAtHome(RegisterCancel(s, perform, blocking, xioOk))
  {
    if s.open && xioOk && s.pending != [] { CaptureAll(s, |s.cancels|); }
  }

  /** Steps of one operation. */
  lemma OpKeepsHome(s: State, t: State, o: nat)
    requires AllAtHome(s) && o < |s.ops| && t.space == s.space && |t.ops| == |s.ops| && OpAtHome(t.ops[o], s.space)
    requires t.ops == s.ops[o := t.ops[o]] && t.cancels == s.cancels
    ensures AllAtHome(t)
  {
  }

  lemma RecordKeepsHome(s: State, t: State, o: nat, c: nat)
    requires AllAtHome(s) && o < |s.ops| && t.space == s.space && |t.ops| == |s.ops| && OpAtHome(t.ops[o], s.space)
    requires c < |s.cancels| && |t.cancels| == |s.cancels| && CancelAtHome(t.cancels[c], s.space)
    requires t.ops == s.ops[o := t.ops[o]] && t.cancels == s.cancels[c := t.cancels[c]]
    ensures AllAtHome(t)
  {
  }

  lemma PhaseKeepsHome(s: State, step: Step)
    requires Inv(s) && Enabled(s, step) && AllAtHome(s)
    requires step.Complete? || step.Bounce? || step.RunOneshot? || step.Decide? || step.CallUser? || step.Drop?
    ensures AllAtHome(Apply(s, step))
  {
    OpKeepsHome(s, Apply(s, step), step.o);
  }

  lemma CountKeepsHome(s: State, o: nat)
    requires Inv(s) && Enabled(s, Count(o)) && AllAtHome(s)
    ensures AllAtHome(Apply(s, Count(o)))
  {
    var t := Apply(s, Count(o));
    if s.ops[o].cancel.None? {
      OpKeepsHome(s, t, o);
    } else {
      RecordKeepsHome(s, t, o, s.ops[o].cancel.value);
    }
  }

  lemma FireKeepsHome(s: State, o: nat)
    requires Inv(s) && Enabled(s, Fire(o)) && AllAtHome(s)
    ensures AllAtHome(Apply(s, Fire(o)))
  {
    var t, op := Apply(s, Fire(o)), s.ops[o];
    BounceExact(s.space, s.cancels[op.cancel.value].blocking, op.phase.at);
    RecordKeepsHome(s, t, o, op.cancel.value);
  }

  lemma StepAtHome(s: State, step: Step)
    requires Inv(s) && Enabled(s, step) && AllAtHome(s)
    ensures AllAtHome(Apply(s, step))
  {
    match step
    case DoCancel(perform, blocking, xioOk) => CancelKeepsHome(s, perform, blocking, xioOk);
    case Complete(_, _) => PhaseKeepsHome(s, step);
    case Bounce(_) => PhaseKeepsHome(s, step);
    case RunOneshot(_) => PhaseKeepsHome(s, step);
    case Decide(_) => PhaseKeepsHome(s, step);
    case CallUser(_) => PhaseKeepsHome(s, step);
    case Drop(_) => PhaseKeepsHome(s, step);
    case Count(o) => CountKeepsHome(s, o);
    case Fire(o) => FireKeepsHome(s, o);
    case _ =>
  }

  lemma {:induction false} RunAtHome(s: State, steps: seq<Step>)
    requires Inv(s) && AllAtHome(s) && IsRun(s, steps)
    ensures AllAtHome(Exec(s, steps))
    decreases |steps|
  {
    if steps != [] {
      StepKeeps(s, steps[0]);
      StepAtHome(s, steps[0]);
      RunAtHome(Apply(s, steps[0]), steps[1..]);
    }
  }

  /** In every run the user's callbacks, of operations, cancels and the close, run where they belong. */
  lemma CallbacksAtHome(s: State)
    requires Reachable(s)
    ensures AllAtHome(s)
    ensures Enabled(s, CloseCall) ==> AtHome(s.space, s.close.blocking, s.close.phase.at)
  {
    var space, steps :| IsRun(Init(space), steps) && Exec(Init(space), steps) == s;
    RunAtHome(Init(space), steps);
  }

  /** The spaces in which a completion callback finds itself when it is requeued again and again. */
  predicate BounceRun(space: Space, io: bool, blocking: bool, ats: seq<Space>) {
    && (forall i :: 0 <= i < |ats| ==> ShouldBounce(space, blocking, Some(ats[i])))
    && (forall i :: 0 < i < |ats| ==> ats[i] == BounceSpace(space, io, blocking))
  }

  /** Bouncing ends only because reads and writes are never blocking: in a space of the user's a
      blocking one could be requeued twice and any number of times more, and nothing else could. */
  lemma BlockingIoWouldBounceForever(space: Space, io: bool, blocking: bool, n: nat)
    requires n >= 2
    ensures (exists ats :: |ats| == n && BounceRun(space, io, blocking, ats)) <==> io && blocking && space != Global
  {
    if io && blocking && space != Global {
      var ats := seq(n, _ => space);
      assert |ats| == n && BounceRun(space, io, blocking, ats);
    }
    if ats :| |ats| == n && BounceRun(space, io, blocking, ats) {
      assert ats[1] == BounceSpace(space, io, blocking) && ShouldBounce(space, blocking, Some(ats[1]));
    }
  }

  /** A cancel captures operations exactly when the handle is open, XIO accepts the cancel and
      something is pending; otherwise its record is queued to call back with nothing captured. */
  lemma CancelCaptures(s: State, perform: bool, blocking: bool, xioOk: bool)
    requires Inv(s)
    ensures var t := RegisterCancel(s, perform, blocking, xioOk); var c := |s.cancels|;
      && ((exists o :: 0 <= o < |t.ops| && t.ops[o].cancel == Some(c)) <==> s.open && xioOk && s.pending != [])
      && (t.cancels[c].phase == Waiting(Home(s.space, blocking)) <==> !(s.open && xioOk && s.pending != []))
      && |t.cancels| == c + 1 && t.cancels[c].perform == perform && t.cancels[c].blocking == blocking
  {
    var c := |s.cancels|;
    var t := RegisterCancel(s, perform, blocking, xioOk);
    forall o | 0 <= o < |s.ops| ensures s.ops[o].cancel != Some(c) { assert CaptureKnown(s.ops[o], c); }
    if s.open && xioOk && s.pending != [] {
      CaptureAll(s, c);
      CaptureAt(s.ops, s.pending, c, s.pending[0]);
      assert s.pending[0] in s.pending && t.ops[s.pending[0]].cancel == Some(c);
    }
  }

  // ----- every run comes to rest -----

  function OpRank(op: Op): nat {
    match op.phase
    case AtXio => 9
    case Entered(_) => if op.bounces == 0 then 8 else 6
    case Requeued(_) => 7
    case Decided(_, _) => 5
    case Called(_) => 4
    case Counted(_, fires) => if fires then 3 else 2
    case Finished => 0
  }

  function CancelRank(rec: Cancel): nat {
    match rec.phase
    case Live => 3
    case Firing => 2
    case Waiting(_) => 1
    case Fired(_) => 0
  }

  function CloseRank(close: Close): nat {
    if close.NotClosed? then 0
    else
      match close.phase
      case CloseAtXio => 6
      case CloseEntered(_) => if close.bounces == 0 then 5 else 3
      case CloseRequeued(_) => 4
      case CloseCalled => 2
      case CloseDropped => 1
      case CloseFinished => 0
  }

  /** The number of deliveries and callback steps that can still follow. */
  function Rank(s: State): nat {
    Sum(s.ops, OpRank) + Sum(s.cancels, CancelRank) + CloseRank(s.close)
  }

  lemma PhaseShrinks(s: State, step: Step)
    requires Inv(s) && Enabled(s, step)
    requires step.Complete? || step.Bounce? || step.RunOneshot? || step.CallUser?
    ensures Rank(Apply(s, step)) < Rank(s)
  {
    SumUpdate(s.ops, step.o, Apply(s, step).ops[step.o], OpRank);
  }

  lemma DecideShrinks(s: State, step: Step)
    requires Inv(s) && Enabled(s, step) && (step.Decide? || step.Drop?)
    ensures Rank(Apply(s, step)) < Rank(s)
  {
    SumUpdate(s.ops, step.o, Apply(s, step).ops[step.o], OpRank);
  }

  lemma RankUpdate(s: State, t: State, o: nat, op: Op, c: nat, rec: Cancel)
    requires o < |s.ops| && c < |s.cancels| && t.close == s.close
    requires t.ops == s.ops[o := op] && t.cancels == s.cancels[c := rec]
    requires OpRank(op) < OpRank(s.ops[o]) && CancelRank(rec) <= CancelRank(s.cancels[c])
    ensures Rank(t) < Rank(s)
  {
    SumUpdate(s.ops, o, op, OpRank);
    SumUpdate(s.cancels, c, rec, CancelRank);
  }

  lemma CountShrinks(s: State, o: nat)
    requires Inv(s) && Enabled(s, Count(o))
    ensures Rank(Apply(s, Count(o))) < Rank(s)
  {
    var t := Apply(s, Count(o));
    if s.ops[o].cancel.None? {
      SumUpdate(s.ops, o, t.ops[o], OpRank);
    } else {
      var c := s.ops[o].cancel.value;
      SumMember(s.ops, o, Owes(c));
      assert CancelOk(s.ops, s.cancels[c], c);
      RankUpdate(s, t, o, t.ops[o], c, t.cancels[c]);
    }
  }

  lemma FireShrinks(s: State, o: nat)
    requires Inv(s) && Enabled(s, Fire(o))
    ensures Rank(Apply(s, Fire(o))) < Rank(s)
  {
    var t, c := Apply(s, Fire(o)), s.ops[o].cancel.value;
    SumMember(s.ops, o, Fires(c));
    assert CancelOk(s.ops, s.cancels[c], c);
    RankUpdate(s, t, o, t.ops[o], c, t.cancels[c]);
  }

  /** Every step that is not a user call brings the handle closer to rest. */
  lemma InternalStepsShrink(s: State, step: Step)
    requires Inv(s) && Enabled(s, step) && !IsUserCall(step)
    ensures Rank(Apply(s, step)) < Rank(s)
  {
    match step
    case RunKickout(c) => SumUpdate(s.cancels, c, Apply(s, step).cancels[c], CancelRank);
    case Count(o) => CountShrinks(s, o);
    case Fire(o) => FireShrinks(s, o);
    case Complete(_, _) => PhaseShrinks(s, step);
    case Bounce(_) => PhaseShrinks(s, step);
    case RunOneshot(_) => PhaseShrinks(s, step);
    case Decide(_) => DecideShrinks(s, step);
    case CallUser(_) => PhaseShrinks(s, step);
    case Drop(_) => DecideShrinks(s, step);
    case _ =>
  }

  ghost predicate AtRest(s: State) {
    && (forall o :: 0 <= o < |s.ops| ==> s.ops[o].phase.Finished?)
    && (forall c :: 0 <= c < |s.cancels| ==> s.cancels[c].phase.Fired?)
    && (s.close.Closing? ==> s.close.phase.CloseFinished?)
  }

  /** The step an unfinished operation can take. */
  ghost function NextOf(s: State, o: nat): Step
    requires o < |s.ops| && !s.ops[o].phase.Finished?
  {
    match s.ops[o].phase
    case AtXio => Complete(o, None)
    case Entered(at) => if ShouldBounce(s.space, s.ops[o].blocking, at) then Bounce(o) else Decide(o)
    case Requeued(_) => RunOneshot(o)
    case Decided(_, _) => CallUser(o)
    case Called(_) => Count(o)
    case Counted(_, fires) => if fires then Fire(o) else Drop(o)
  }

  ghost function NextClose(s: State): Step
    requires s.close.Closing? && !s.close.phase.CloseFinished?
  {
    match s.close.phase
    case CloseAtXio => CloseComplete(None)
    case CloseEntered(at) => if ShouldBounce(s.space, s.close.blocking, at) then CloseBounce else CloseCall
    case CloseRequeued(_) => CloseRunOneshot
    case CloseCalled => CloseDrop
    case CloseDropped => CloseDestroy
  }

  /** A handle that is not at rest can always take a step. */
  lemma NoDeadlock(s: State) returns (step: Step)
    requires Inv(s) && !AtRest(s)
    ensures Enabled(s, step) && !IsUserCall(step)
  {
    if o :| 0 <= o < |s.ops| && !s.ops[o].phase.Finished? {
      step := NextOf(s, o);
    } else if s.close.Closing? && !s.close.phase.CloseFinished? {
      step := NextClose(s);
    } else {
      var c :| 0 <= c < |s.cancels| && !s.cancels[c].phase.Fired?;
      SumZero(s.ops, Owes(c));
      SumZero(s.ops, Fires(c));
      step := RunKickout(c);
    }
  }

  /** At rest every accepted cancel has fired exactly once, every operation has called back or
      was suppressed, and a closed handle has been freed. */
  lemma RestOutcome(s: State)
    requires Inv(s) && AtRest(s)
    ensures forall c :: 0 <= c < |s.cancels| ==> s.cancels[c].calls == 1 && s.cancels[c].refs == 0
    ensures forall o :: 0 <= o < |s.ops| ==> s.ops[o].calls == if SkipAllowed(s.ops[o], s.cancels) then 0 else 1
    ensures s.close.Closing? ==> s.frees == 1 && s.close.calls == 1
    ensures s.close.NotClosed? ==> s.frees == 0 && s.refs == 1
  {
    SumZero(s.ops, Holds);
    forall c | 0 <= c < |s.cancels| ensures s.cancels[c].refs == 0 {
      SumZero(s.ops, Owes(c));
    }
  }

  /** Without new user calls no run is longer than the rank: the environment's deliveries and
      the callbacks cannot go on forever. */
  lemma {:induction false} InternalRunsEnd(s: State, steps: seq<Step>)
    requires Inv(s) && IsRun(s, steps) && forall i :: 0 <= i < |steps| ==> !IsUserCall(steps[i])
    ensures |steps| <= Rank(s)
    decreases |steps|
  {
    if steps != [] {
      InternalStepsShrink(s, steps[0]);
      StepKeeps(s, steps[0]);
      InternalRunsEnd(Apply(s, steps[0]), steps[1..]);
    }
  }

  /** From every state the remaining deliveries lead to rest. */
  lemma {:induction false} ComesToRest(s: State) returns (steps: seq<Step>)
    requires Inv(s)
    ensures IsRun(s, steps) && Inv(Exec(s, steps)) && AtRest(Exec(s, steps))
    ensures forall i :: 0 <= i < |steps| ==> !IsUserCall(steps[i])
    decreases Rank(s)
  {
    if AtRest(s) {
      steps := [];
    } else {
      var step := NoDeadlock(s);
      StepKeeps(s, step);
      InternalStepsShrink(s, step);
      var rest := ComesToRest(Apply(s, step));
      steps := [step] + rest;
      assert steps[1..] == rest;
    }
  }

  // ----- a completion callback without interruption -----

  function CallOp(s: State, o: nat): State
    requires o < |s.ops| && s.ops[o].phase.Decided?
  {
    var op := s.ops[o];
    SetOp(s, o, op.(phase := Called(op.phase.at), calls := op.calls + (if op.phase.perform then 1 else 0)))
  }

  function FireOp(s: State, o: nat): State
    requires o < |s.ops| && s.ops[o].phase.Counted? && s.ops[o].cancel.Some? && s.ops[o].cancel.value < |s.cancels|
  {
    var op := s.ops[o];
    FireCancel(SetOp(s, o, op.(phase := Counted(op.phase.at, false))), op.cancel.value, op.phase.at)
  }

  /** Counting off, firing and dropping the reference in one go. */
  function CompleteOp(s: State, o: nat): State
    requires o < |s.ops| && s.ops[o].phase.Called? && CaptureKnown(s.ops[o], |s.cancels|)
  {
    var t := CountOff(s, o, s.ops[o].phase.at);
    var u := if t.ops[o].phase.fires then FireOp(t, o) else t;
    Destroy(SetOp(u, o, u.ops[o].(phase := Finished)))
  }

  lemma DecidedWellFormed(s: State, o: nat, at: Option<Space>)
    requires WellFormed(s) && o < |s.ops|
    ensures var t := Precallback(s, o, at);
      WellFormed(t) && WellFormed(CallOp(t, o)) && CallOp(t, o).ops[o].phase.Called?
  {
    RemoveSubset(s.pending, o);
    var t := Precallback(s, o, at);
    assert forall p :: 0 <= p < |t.ops| && p != o ==> t.ops[p] == s.ops[p];
    assert CaptureKnown(s.ops[o], |s.cancels|);
  }

  lemma {:induction false} RemoveSubset(s: seq<nat>, o: nat)
    ensures forall i :: 0 <= i < |Remove(s, o)| ==> Remove(s, o)[i] in s
  {
    if s != [] && s[0] != o { RemoveSubset(s[1..], o); }
  }

  /** The whole callback: requeued, or carried through to its end. */
  function CallbackOp(s: State, o: nat): State
    requires WellFormed(s) && o < |s.ops| && s.ops[o].phase.Entered?
  {
    var op := s.ops[o];
    if ShouldBounce(s.space, op.blocking, op.phase.at) then
      SetOp(s, o, op.(phase := Requeued(BounceSpace(s.space, op.io, op.blocking)), bounces := op.bounces + 1))
    else CompleteOp(CallOp(Precallback(s, o, op.phase.at), o), o)
  }

  lemma CompleteEffect(s: State, o: nat)
    requires o < |s.ops| && s.ops[o].phase.Called? && CaptureKnown(s.ops[o], |s.cancels|)
    ensures var t := CompleteOp(s, o);
      t.refs == s.refs - 1 && |t.ops| == |s.ops| && t.ops[o] == s.ops[o].(phase := Finished)
  {
  }

  lemma CompleteInv(s: State, o: nat)
    requires Inv(s) && o < |s.ops| && s.ops[o].phase.Called?
    ensures Inv(CompleteOp(s, o))
  {
    StepKeeps(s, Count(o));
    var t := Apply(s, Count(o));
    if t.ops[o].phase.fires {
      StepKeeps(t, Fire(o));
      StepKeeps(Apply(t, Fire(o)), Drop(o));
    } else {
      StepKeeps(t, Drop(o));
    }
  }

  /** Finishing an operation keeps the invariant, finishes it and gives back one reference. */
  lemma CompleteKeeps(s: State, o: nat)
    requires Inv(s) && o < |s.ops| && s.ops[o].phase.Called?
    ensures var t := CompleteOp(s, o);
      Inv(t) && t.refs == s.refs - 1 && |t.ops| == |s.ops| && t.ops[o] == s.ops[o].(phase := Finished)
  {
    CompleteInv(s, o);
    CompleteEffect(s, o);
  }

  predicate Through(s: State, o: nat)
    requires o < |s.ops|
  {
    s.ops[o].phase.Entered? && !ShouldBounce(s.space, s.ops[o].blocking, s.ops[o].phase.at)
  }

  lemma DecideOpKeeps(s: State, o: nat)
    requires Inv(s) && o < |s.ops| && Through(s, o)
    ensures Inv(Precallback(s, o, s.ops[o].phase.at))
  {
    DecideKeeps(s, o);
  }

  lemma CallOpKeeps(s: State, o: nat)
    requires Inv(s) && o < |s.ops| && s.ops[o].phase.Decided?
    ensures Inv(CallOp(s, o))
  {
    PhaseKeeps(s, CallUser(o));
  }

  lemma CallKeeps(s: State, o: nat)
    requires Inv(s) && o < |s.ops| && Through(s, o)
    ensures Inv(CallOp(Precallback(s, o, s.ops[o].phase.at), o))
  {
    DecideOpKeeps(s, o);
    CallOpKeeps(Precallback(s, o, s.ops[o].phase.at), o);
  }

  lemma CallEffect(s: State, o: nat)
    requires o < |s.ops| && Through(s, o)
    ensures var t := CallOp(Precallback(s, o, s.ops[o].phase.at), o);
      && t.refs == s.refs && |t.ops| == |s.ops| && t.ops[o].phase.Called?
      && t.ops[o].calls == s.ops[o].calls + (if Performs(s, o) then 1 else 0)
  {
  }

  lemma BounceKeeps(s: State, o: nat)
    requires Inv(s) && o < |s.ops| && s.ops[o].phase.Entered? && !Through(s, o)
    ensures Inv(CallbackOp(s, o)) && |CallbackOp(s, o).ops| == |s.ops|
  {
    StepKeeps(s, Bounce(o));
  }

  /** A whole callback keeps the invariant; carried through, it finishes the operation, gives back one
      reference and calls the user back exactly if it is to. */
  lemma CallbackKeeps(s: State, o: nat)
    requires Inv(s) && o < |s.ops| && s.ops[o].phase.Entered?
    ensures Inv(CallbackOp(s, o)) && |CallbackOp(s, o).ops| == |s.ops|
    ensures Through(s, o) ==> CallbackOp(s, o).ops[o].phase == Finished && CallbackOp(s, o).refs == s.refs - 1
    ensures Through(s, o) ==> CallbackOp(s, o).ops[o].calls == s.ops[o].calls + (if Performs(s, o) then 1 else 0)
  {
    if Through(s, o) {
      CallKeeps(s, o);
      CallEffect(s, o);
      CompleteKeeps(CallOp(Precallback(s, o, s.ops[o].phase.at), o), o);
    } else {
      BounceKeeps(s, o);
    }
  }

  // ----- the locked regions as methods on a handle object -----

  class IoHandle {
    const space: Space
    var refs: int
    var open: bool            // an XIO handle or server is attached
    var pending: seq<nat>     // the pending_ops list
    var ops: seq<Op>          // all bounce records
    var cancels: seq<Cancel>  // all cancel records
    var close: Close
    var frees: nat

    function Abs(): State
      reads this
    {
      State(space, refs, open, pending, ops, cancels, close, frees)
    }

    constructor (space: Space)
      ensures Abs() == Init(space)
    {
      this.space := space;
      refs, open, pending, ops, cancels, close, frees := 1, true, [], [], [], NotClosed, 0;
    }

    method CancelInsert(op: Op)
      modifies this`refs, this`pending, this`ops
      ensures Abs() == Insert(old(Abs()), op)
    {
      refs := refs + 1;
      pending := [|ops|] + pending;
      ops := ops + [op];
    }

    /** Register a read, a write or another operation. */
    method Register(io: bool, blocking: bool) returns (o: nat)
      requires Inv(Abs()) && Enabled(Abs(), DoRegister(io, blocking))
      modifies this`refs, this`pending, this`ops
      ensures Inv(Abs()) && Abs() == Apply(old(Abs()), DoRegister(io, blocking)) && o == old(|ops|) < |ops|
    {
      ghost var s := Abs();
      StepKeeps(s, DoRegister(io, blocking));
      o := |ops|;
      CancelInsert(Op(io, blocking, None, AtXio, 0, 0));
    }

    /** Search the pending list and take the operation out. */
    method RemovePending(o: nat)
      modifies this`pending
      ensures pending == Remove(old(pending), o)
    {
      var i := 0;
      while i < |pending| && pending[i] != o
        invariant 0 <= i <= |pending|
        invariant pending[..i] + Remove(pending[i..], o) == Remove(pending, o)
      {
        assert pending[..i + 1] + Remove(pending[i + 1..], o) ==
               pending[..i] + ([pending[i]] + Remove(pending[i + 1..], o));
        i := i + 1;
      }
      if i < |pending| {
        pending := pending[..i] + pending[i + 1..];
      }
    }

    method CancelPrecallback(o: nat, at: Option<Space>) returns (perform: bool)
      requires o < |ops| && WellFormed(Abs())
      modifies this`pending, this`ops
      ensures Abs() == Precallback(old(Abs()), o, at) && perform == Performs(old(Abs()), o)
      ensures old(Inv(Abs()) && Enabled(Abs(), Decide(o)) && ops[o].phase.at == at) ==> Inv(Abs())
    {
      ghost var s := Abs();
      if Inv(s) && Enabled(s, Decide(o)) { StepKeeps(s, Decide(o)); }
      perform := true;
      if ops[o].cancel.Some? {
        if !ops[o].blocking && !cancels[ops[o].cancel.value].perform {
          perform := false;
        }
      } else {
        RemovePending(o);
      }
      ops := ops[o := ops[o].(phase := Decided(at, perform))];
    }

    method CancelCount(o: nat, at: Option<Space>) returns (fires: bool)
      requires o < |ops| && WellFormed(Abs())
      modifies this`ops, this`cancels
      ensures Abs() == CountOff(old(Abs()), o, at) && fires == ops[o].phase.fires
      ensures old(Inv(Abs()) && Enabled(Abs(), Count(o)) && ops[o].phase.at == at) ==> Inv(Abs())
    {
      ghost var s := Abs();
      if Inv(s) && Enabled(s, Count(o)) { StepKeeps(s, Count(o)); }
      fires := false;
      if ops[o].cancel.Some? {
        var c := ops[o].cancel.value;
        cancels := cancels[c := cancels[c].(refs := cancels[c].refs - 1)];
        if cancels[c].refs == 0 {
          cancels := cancels[c := cancels[c].(phase := Firing)];
          fires := true;
        }
      }
      ops := ops[o := ops[o].(phase := Counted(at, fires))];
    }

    method DropReference() returns (destroy: bool)
      modifies this`refs, this`frees
      ensures Abs() == Destroy(old(Abs())) && (destroy <==> refs == 0)
    {
      refs := refs - 1;
      destroy := refs == 0;
      if destroy {
        frees := frees + 1;
      }
    }

    method DoRegisterClose(blocking: bool, xioOk: bool) returns (ok: bool)
      modifies this`open, this`refs, this`close
      ensures Abs() == RegisterClose(old(Abs()), blocking, xioOk) && ok == (old(open) && xioOk)
      ensures old(Inv(Abs()) && frees == 0) ==> Inv(Abs())
    {
      ghost var s := Abs();
      if Inv(s) && frees == 0 { StepKeeps(s, DoClose(blocking, xioOk)); }
      ok := false;
      if open {
        open := false;
        if xioOk {
          refs := refs + 1;
          close := Closing(blocking, CloseAtXio, 0, 0);
          ok := true;
        }
      }
    }

    /** Drain the pending list into a new cancel record; queue the record at once if it is empty.
        Only a failure to queue it is reported: whether XIO accepted the cancel is not. */
    method DoRegisterCancel(perform: bool, blocking: bool, xioOk: bool, oneshotOk: bool) returns (ok: bool, c: nat)
      requires WellFormed(Abs())
      modifies this`pending, this`ops, this`cancels
      ensures ok <==> oneshotOk || (open && xioOk && old(pending) != [])
      ensures ok ==> Abs() == RegisterCancel(old(Abs()), perform, blocking, xioOk) && c == old(|cancels|)
      ensures !ok ==> Abs() == old(Abs())
      ensures old(Inv(Abs()) && frees == 0) ==> Inv(Abs())
    {
      ghost var s := Abs();
      if Inv(s) && frees == 0 { StepKeeps(s, DoCancel(perform, blocking, xioOk)); }
      c := |cancels|;
      var refs := 0;
      if open && xioOk {
        var list := pending;
        pending := [];
        while list != []
          invariant Known(list, |ops|) && refs == old(|pending|) - |list|
          invariant pending == [] && cancels == old(cancels)
          invariant Capture(ops, list, c) == Capture(old(ops), old(pending), c)
        {
          var o := list[0];
          list := list[1..];
          ops := ops[o := ops[o].(cancel := Some(c))];
          refs := refs + 1;
        }
        assert refs == 0 ==> pending == old(pending);
      }
      if refs == 0 && !oneshotOk { return false, c; }
      var on := if blocking then Global else space;
      cancels := cancels + [Cancel(refs, perform, blocking, if refs == 0 then Waiting(on) else Live, 0)];
      ok := true;
    }

    /** The user's callback, if it is to run. */
    method CallBack(o: nat)
      requires o < |ops| && ops[o].phase.Decided?
      modifies this`ops
      ensures Abs() == CallOp(old(Abs()), o)
    {
      var op := ops[o];
      ops := ops[o := op.(phase := Called(op.phase.at), calls := op.calls + (if op.phase.perform then 1 else 0))];
    }

    /** Call the cancel callback, or queue it in the space it belongs to. */
    method FireRecord(o: nat)
      requires o < |ops| && ops[o].phase.Counted? && ops[o].cancel.Some? && ops[o].cancel.value < |cancels|
      modifies this`ops, this`cancels
      ensures Abs() == FireOp(old(Abs()), o)
    {
      var op := ops[o];
      var c := op.cancel.value;
      ops := ops[o := op.(phase := Counted(op.phase.at, false))];
      if ShouldBounce(space, cancels[c].blocking, op.phase.at) {
        var on := if cancels[c].blocking then Global else space;
        cancels := cancels[c := cancels[c].(phase := Waiting(on))];
      } else {
        cancels := cancels[c := cancels[c].(phase := Fired(op.phase.at), calls := cancels[c].calls + 1)];
      }
    }

    /** Count a called-back operation off its cancel record, fire the record if it was the last,
        and give the operation's reference back. */
    method CancelComplete(o: nat) returns (destroy: bool)
      requires WellFormed(Abs()) && o < |ops| && ops[o].phase.Called?
      modifies this`ops, this`cancels, this`refs, this`frees
      ensures Abs() == CompleteOp(old(Abs()), o) && (destroy <==> refs == 0)
      ensures old(Inv(Abs())) ==> Inv(Abs())
    {
      ghost var s := Abs();
      if Inv(s) { CompleteKeeps(s, o); }
      var fires := CancelCount(o, ops[o].phase.at);
      if fires { FireRecord(o); }
      ops := ops[o := ops[o].(phase := Finished)];
      destroy := DropReference();
    }

    /** A completion callback from its entry to its end, when nothing comes in between: requeued,
        or decided, called back, counted off its cancel and finished. */
    method CompletionCallback(o: nat) returns (performed: bool)
      requires WellFormed(Abs()) && o < |ops| && ops[o].phase.Entered?
      modifies this`pending, this`ops, this`cancels, this`refs, this`frees
      ensures Abs() == CallbackOp(old(Abs()), o)
      ensures old(Inv(Abs())) ==> Inv(Abs())
      ensures performed <==> old(!ShouldBounce(space, ops[o].blocking, ops[o].phase.at) && Performs(Abs(), o))
    {
      ghost var s := Abs();
      if Inv(s) { CallbackKeeps(s, o); }
      var at := ops[o].phase.at;
      if ShouldBounce(space, ops[o].blocking, at) {
        var op := ops[o];
        ops := ops[o := op.(phase := Requeued(BounceSpace(space, op.io, op.blocking)), bounces := op.bounces + 1)];
        return false;
      }
      DecidedWellFormed(s, o, at);
      performed := CancelPrecallback(o, at);
      CallBack(o);
      var destroy := CancelComplete(o);
    }
  }
}
