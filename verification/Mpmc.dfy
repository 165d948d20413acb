/** The asynchronous multi-producer multi-consumer channel of utils/src/mpmc.rs as a system of
    interleaved atomic steps.

    Every atomic access of `send`, `try_recv`, `recv`, `close` and `flush_pending_prefetch_requests`
    is one step, and any number of calls may be in progress at once.  The notifier follows the
    documented behaviour of `tokio::sync::Notify`: one stored permit, waiters woken oldest first,
    `enable` registers the waiter, and dropping a future that holds an unconsumed `notify_one`
    wake-up passes that wake-up on. */
module Mpmc {

  // ----- Notifier and call states ---------------------------------------------------------

  datatype Notification = Unnotified | One | All

  /** A `Notified` future: created (remembering the number of `notify_waiters` calls so far),
      registered in the waiter list, or completed. */
  datatype Future = Created(calls: nat) | Waiting(notification: Notification) | Done

  /** A queued message together with its number in the order of acceptance. */
  datatype Entry<T> = Entry(ticket: nat, msg: T)

  datatype Outcome<T> = Message(entry: Entry<T>) | BrokenPipe | Cancelled

  datatype RecvPc<T> =
    | Enabling
    | Checking
    | CheckingClosed
    | Awaiting
    | Resetting
    | Leaving(outcome: Outcome<T>)
    | Returned(outcome: Outcome<T>)

  /** `woken` records that the call consumed a `notify_one` wake-up and has not looked at the
      queue since. */
  datatype Receiver<T> = Receiver(pc: RecvPc<T>, future: Future, woken: bool)

  datatype Sender<T> = Loading(msg: T) | Pushing(msg: T) | Notifying | Accepted | Rejected(msg: T)

  datatype Closer = Storing | Waking | Finished

  datatype State<T> = State(
    closed: bool,
    permit: bool,
    calls: nat,
    waiters: seq<nat>,
    queue: seq<Entry<T>>,
    senders: map<nat, Sender<T>>,
    receivers: map<nat, Receiver<T>>,
    closers: map<nat, Closer>,
    accepted: seq<T>,
    taken: seq<Entry<T>>,
    flushed: seq<Entry<T>>)

  ghost function Start<T>(): State<T> {
    State(false, false, 0, [], [], map[], map[], map[], [], [], [])
  }

  // ----- Notifier operations --------------------------------------------------------------

  ghost function Remove(ws: seq<nat>, r: nat): seq<nat> {
    if ws == [] then [] else if ws[0] == r then Remove(ws[1..], r) else [ws[0]] + Remove(ws[1..], r)
  }

  /** `notify_one`: wake the oldest waiter, or store the permit when nobody waits. */
  ghost function NotifyOne<T>(s: State<T>): State<T> {
    if s.waiters == [] then
      s.(permit := true)
    else
      var r := s.waiters[0];
      if r in s.receivers then
        s.(waiters := s.waiters[1..],
           receivers := s.receivers[r := s.receivers[r].(future := Waiting(One))])
      else
        s
  }

  /** `notify_waiters`: wake every registered waiter; no permit is stored. */
  ghost function NotifyWaiters<T>(s: State<T>): State<T> {
    s.(calls := s.calls + 1,
       waiters := [],
       receivers := map r | r in s.receivers ::
         if r in s.waiters then s.receivers[r].(future := Waiting(All)) else s.receivers[r])
  }

  /** Drop the future of receiver `r`, forwarding an unconsumed `notify_one` wake-up. */
  ghost function DropFuture<T>(s: State<T>, r: nat): State<T>
    requires r in s.receivers
  {
    var done := s.(receivers := s.receivers[r := s.receivers[r].(future := Done)]);
    match s.receivers[r].future
    case Waiting(Unnotified) => done.(waiters := Remove(s.waiters, r))
    case Waiting(One) => NotifyOne(done)
    case _ => done
  }

  ghost function Retain<T>(q: seq<Entry<T>>, drop: T -> bool): seq<Entry<T>> {
    if q == [] then []
    else if drop(q[0].msg) then Retain(q[1..], drop)
    else [q[0]] + Retain(q[1..], drop)
  }

  // ----- Steps ----------------------------------------------------------------------------

  datatype Step<!T> =
    | SendStart(id: nat, msg: T)
    | SendLoad(id: nat)
    | SendPush(id: nat)
    | SendNotify(id: nat)
    | RecvStart(id: nat)
    | RecvEnable(id: nat)
    | RecvCheck(id: nat)
    | RecvCheckClosed(id: nat)
    | RecvAwait(id: nat)
    | RecvReset(id: nat)
    | RecvCancel(id: nat)
    | RecvLeave(id: nat)
    | CloseStart(id: nat)
    | CloseStore(id: nat)
    | CloseWake(id: nat)
    | TryRecv
    | Flush(drop: T -> bool)
    | NotifyAll
  {
    /** True of the steps taken by the `recv` call `r`. */
    ghost predicate OfReceiver(r: nat) {
      (RecvStart? || RecvEnable? || RecvCheck? || RecvCheckClosed? || RecvAwait? || RecvReset?
       || RecvCancel? || RecvLeave?) && id == r
    }

    /** True of the steps that continue a call already in progress. */
    ghost predicate Internal() {
      SendLoad? || SendPush? || SendNotify? || RecvEnable? || RecvCheck? || RecvCheckClosed?
      || RecvAwait? || RecvReset? || RecvLeave? || CloseStore? || CloseWake?
    }
  }

  ghost predicate At<T>(s: State<T>, r: nat, pc: RecvPc<T>) {
    r in s.receivers && s.receivers[r].pc == pc
  }

  ghost predicate Ready(f: Future) {
    f.Done? || (f.Waiting? && !f.notification.Unnotified?)
  }

  ghost predicate Enabled<T(!new)>(s: State<T>, step: Step<T>) {
    match step
    case SendStart(i, _) => i !in s.senders
    case SendLoad(i) => i in s.senders && s.senders[i].Loading?
    case SendPush(i) => i in s.senders && s.senders[i].Pushing?
    case SendNotify(i) => i in s.senders && s.senders[i].Notifying?
    case RecvStart(r) => r !in s.receivers
    case RecvEnable(r) => At(s, r, Enabling) && s.receivers[r].future.Created?
    case RecvCheck(r) => At(s, r, Checking)
    case RecvCheckClosed(r) => At(s, r, CheckingClosed)
    case RecvAwait(r) => At(s, r, Awaiting) && Ready(s.receivers[r].future)
    case RecvReset(r) => At(s, r, Resetting)
    case RecvCancel(r) => At(s, r, Awaiting)
    case RecvLeave(r) => r in s.receivers && s.receivers[r].pc.Leaving?
    case CloseStart(c) => c !in s.closers
    case CloseStore(c) => c in s.closers && s.closers[c].Storing?
    case CloseWake(c) => c in s.closers && s.closers[c].Waking?
    case TryRecv => true
    case Flush(_) => true
    case NotifyAll => true
  }

  ghost function Enable<T>(s: State<T>, r: nat): State<T>
    requires r in s.receivers && s.receivers[r].future.Created?
  {
    var me := s.receivers[r].(pc := Checking);
    if s.permit then
      s.(permit := false, receivers := s.receivers[r := me.(future := Done)])
    else if s.receivers[r].future.calls != s.calls then
      s.(receivers := s.receivers[r := me.(future := Done)])
    else
      s.(waiters := s.waiters + [r],
         receivers := s.receivers[r := me.(future := Waiting(Unnotified))])
  }

  ghost function Check<T>(s: State<T>, r: nat): State<T>
    requires r in s.receivers
  {
    var me := s.receivers[r].(woken := false);
    if s.queue != [] then
      s.(queue := s.queue[1..], taken := s.taken + [s.queue[0]],
         receivers := s.receivers[r := me.(pc := Leaving(Message(s.queue[0])))])
    else
      s.(receivers := s.receivers[r := me.(pc := CheckingClosed)])
  }

  ghost function Apply<T(!new)>(s: State<T>, step: Step<T>): State<T>
    requires Enabled(s, step)
  {
    match step
    case SendStart(i, m) => s.(senders := s.senders[i := Loading(m)])
    case SendLoad(i) =>
      var m := s.senders[i].msg;
      s.(senders := s.senders[i := if s.closed then Rejected(m) else Pushing(m)])
    case SendPush(i) =>
      var m := s.senders[i].msg;
      s.(queue := s.queue + [Entry(|s.accepted|, m)], accepted := s.accepted + [m],
         senders := s.senders[i := Notifying])
    case SendNotify(i) => NotifyOne(s.(senders := s.senders[i := Accepted]))
    case RecvStart(r) =>
      s.(receivers := s.receivers[r := Receiver(Enabling, Created(s.calls), false)])
    case RecvEnable(r) => Enable(s, r)
    case RecvCheck(r) => Check(s, r)
    case RecvCheckClosed(r) =>
      s.(receivers := s.receivers[r :=
        s.receivers[r].(pc := if s.closed then Leaving(BrokenPipe) else Awaiting)])
    case RecvAwait(r) =>
      s.(receivers := s.receivers[r :=
        Receiver(Resetting, Done, s.receivers[r].future == Waiting(One))])
    case RecvReset(r) =>
      s.(receivers := s.receivers[r := s.receivers[r].(pc := Enabling, future := Created(s.calls))])
    case RecvCancel(r) =>
      s.(receivers := s.receivers[r := s.receivers[r].(pc := Leaving(Cancelled))])
    case RecvLeave(r) =>
      DropFuture(s.(receivers := s.receivers[r :=
        s.receivers[r].(pc := Returned(s.receivers[r].pc.outcome))]), r)
    case CloseStart(c) => s.(closers := s.closers[c := Storing])
    case CloseStore(c) => s.(closed := true, closers := s.closers[c := Waking])
    case CloseWake(c) => NotifyWaiters(s.(closers := s.closers[c := Finished]))
    case TryRecv =>
      if s.queue == [] then s
      else s.(queue := s.queue[1..], taken := s.taken + [s.queue[0]])
    case Flush(drop) =>
      s.(queue := Retain(s.queue, drop), flushed := s.flushed + Retain(s.queue, m => !drop(m)))
    case NotifyAll => NotifyWaiters(s)
  }

  /** The first `k` steps lead from the empty state to `states[k]`, each one enabled. */
  ghost predicate RunsTo<T(!new)>(states: seq<State<T>>, steps: seq<Step<T>>, k: nat)
    requires k <= |steps| && |states| == |steps| + 1
  {
    if k == 0 then states[0] == Start()
    else
      && RunsTo(states, steps, k - 1)
      && Enabled(states[k - 1], steps[k - 1]) && states[k] == Apply(states[k - 1], steps[k - 1])
  }

  /** `states` is a run of the system: it starts empty and each state follows by an enabled step. */
  ghost predicate IsRun<T(!new)>(states: seq<State<T>>, steps: seq<Step<T>>) {
    |states| == |steps| + 1 && RunsTo(states, steps, |steps|)
  }

  lemma {:induction false} RunsToEarlier<T(!new)>(states: seq<State<T>>, steps: seq<Step<T>>, k: nat, n: nat)
    requires k <= n <= |steps| && |states| == |steps| + 1 && RunsTo(states, steps, n)
    ensures RunsTo(states, steps, k)
    decreases n
  {
    if k < n { RunsToEarlier(states, steps, k, n - 1); }
  }

  /** Step `k` of a run. */
  lemma RunStep<T(!new)>(states: seq<State<T>>, steps: seq<Step<T>>, k: nat)
    requires IsRun(states, steps) && k < |steps|
    ensures Enabled(states[k], steps[k]) && states[k + 1] == Apply(states[k], steps[k])
  {
    RunsToEarlier(states, steps, k + 1, |steps|);
  }

  lemma RunStart<T(!new)>(states: seq<State<T>>, steps: seq<Step<T>>)
    requires IsRun(states, steps)
    ensures states[0] == Start()
  {
    RunsToEarlier(states, steps, 0, |steps|);
  }

  // ----- Invariant of the waiter list -----------------------------------------------------

  ghost predicate NoDuplicates(ws: seq<nat>) {
    forall i, j | 0 <= i < j < |ws| :: ws[i] != ws[j]
  }

  ghost predicate PcMatchesFuture<T>(v: Receiver<T>) {
    && (v.pc.Enabling? <==> v.future.Created?)
    && (v.pc.Resetting? || v.pc.Returned? ==> v.future.Done?)
    && (v.woken ==> v.pc.Enabling? || v.pc.Checking? || v.pc.Resetting?)
  }

  ghost predicate ListOk<T>(waiters: seq<nat>, permit: bool, receivers: map<nat, Receiver<T>>) {
    && NoDuplicates(waiters)
    && (forall r :: r in waiters <==> r in receivers && receivers[r].future == Waiting(Unnotified))
    && (permit ==> waiters == [])
    && forall r | r in receivers :: PcMatchesFuture(receivers[r])
  }

  /** The waiter list holds exactly the registered receivers that have not been notified, each
      once, and a permit is stored only while nobody waits. */
  ghost predicate WaitersOk<T>(s: State<T>) {
    ListOk(s.waiters, s.permit, s.receivers)
  }

  lemma {:induction false} RemoveIsFilter(ws: seq<nat>, r: nat)
    requires NoDuplicates(ws)
    ensures NoDuplicates(Remove(ws, r))
    ensures forall x :: x in Remove(ws, r) <==> x in ws && x != r
  {
    if ws != [] {
      RemoveIsFilter(ws[1..], r);
      assert ws == [ws[0]] + ws[1..];
      assert ws[0] !in ws[1..];
      assert ws[0] !in Remove(ws[1..], r);
    }
  }

  /** Replacing one receiver keeps the list in order when it stays in, or stays out of, the list. */
  lemma ReplaceKeepsList<T>(ws: seq<nat>, permit: bool, rs: map<nat, Receiver<T>>, r: nat, v: Receiver<T>)
    requires ListOk(ws, permit, rs)
    requires PcMatchesFuture(v)
    requires v.future == Waiting(Unnotified) <==>
             r in rs && rs[r].future == Waiting(Unnotified)
    ensures ListOk(ws, permit, rs[r := v])
  {
    assert r in ws <==> r in rs && rs[r].future == Waiting(Unnotified);
  }

  lemma NotifyOneKeepsWaiters<T>(s: State<T>)
    requires WaitersOk(s)
    ensures WaitersOk(NotifyOne(s))
  {
    if s.waiters != [] {
      var r := s.waiters[0];
      var t := NotifyOne(s);
      assert s.waiters == [r] + t.waiters;
      assert r !in t.waiters;
    }
  }

  lemma NotifyWaitersKeepsWaiters<T>(s: State<T>)
    requires WaitersOk(s)
    ensures WaitersOk(NotifyWaiters(s))
  {
    var t := NotifyWaiters(s);
    forall r | r in t.receivers ensures PcMatchesFuture(t.receivers[r]) {
      assert PcMatchesFuture(s.receivers[r]);
    }
  }

  lemma LeaveKeepsWaiters<T(!new)>(s: State<T>, r: nat)
    requires WaitersOk(s) && Enabled(s, RecvLeave(r))
    ensures WaitersOk(Apply(s, RecvLeave(r)))
  {
    var t := Apply(s, RecvLeave(r));
    var old_ := s.receivers[r].(pc := Returned(s.receivers[r].pc.outcome));
    var v := old_.(future := Done);
    assert s.receivers[r := old_][r := v] == s.receivers[r := v];
    if s.receivers[r].future == Waiting(Unnotified) {
      RemoveIsFilter(s.waiters, r);
    } else {
      ReplaceKeepsList(s.waiters, s.permit, s.receivers, r, v);
      if s.receivers[r].future == Waiting(One) {
        NotifyOneKeepsWaiters(s.(receivers := s.receivers[r := v]));
      }
    }
  }

  lemma EnableKeepsWaiters<T>(s: State<T>, r: nat)
    requires WaitersOk(s) && At(s, r, Enabling) && s.receivers[r].future.Created?
    ensures WaitersOk(Enable(s, r))
  {
    var t := Enable(s, r);
    var v := t.receivers[r];
    assert r !in s.waiters && t.receivers == s.receivers[r := v];
    if v.future.Done? {
      ReplaceKeepsList(s.waiters, s.permit, s.receivers, r, v);
    } else {
      AppendKeepsList(s.waiters, s.receivers, r, v);
    }
  }

  /** A receiver that starts to wait goes to the end of the list. */
  lemma AppendKeepsList<T>(ws: seq<nat>, rs: map<nat, Receiver<T>>, r: nat, v: Receiver<T>)
    requires ListOk(ws, false, rs) && r !in ws && v.future == Waiting(Unnotified) && PcMatchesFuture(v)
    ensures ListOk(ws + [r], false, rs[r := v])
  {
  }

  /** The steps that only move one `recv` call to a new control point. */
  ghost predicate MovesOneReceiver<T>(step: Step<T>) {
    step.RecvStart? || step.RecvCheck? || step.RecvCheckClosed? || step.RecvAwait?
    || step.RecvReset? || step.RecvCancel?
  }

  lemma MoveFrame<T(!new)>(s: State<T>, step: Step<T>)
    requires Enabled(s, step) && MovesOneReceiver(step)
    ensures var t := Apply(s, step);
            && step.id in t.receivers && t.receivers == s.receivers[step.id := t.receivers[step.id]]
            && t.waiters == s.waiters && t.permit == s.permit && t.senders == s.senders
  {
  }

  lemma MoveKeepsWaiters<T(!new)>(s: State<T>, step: Step<T>)
    requires WaitersOk(s) && Enabled(s, step) && MovesOneReceiver(step)
    ensures WaitersOk(Apply(s, step))
  {
    var t := Apply(s, step);
    var v := t.receivers[step.id];
    MoveFrame(s, step);
    assert PcMatchesFuture(v) by {
      assert step.id in s.receivers ==> PcMatchesFuture(s.receivers[step.id]);
    }
    ReplaceKeepsList(s.waiters, s.permit, s.receivers, step.id, v);
  }

  ghost predicate TouchesNotifier<T>(step: Step<T>) {
    step.SendNotify? || step.CloseWake? || step.NotifyAll? || step.RecvLeave? || step.RecvEnable?
  }

  lemma OtherStepFrame<T(!new)>(s: State<T>, step: Step<T>)
    requires Enabled(s, step) && !TouchesNotifier(step) && !MovesOneReceiver(step)
    ensures var t := Apply(s, step);
            t.waiters == s.waiters && t.permit == s.permit && t.receivers == s.receivers
  {
  }

  lemma StepKeepsWaiters<T(!new)>(s: State<T>, step: Step<T>)
    requires WaitersOk(s) && Enabled(s, step)
    ensures WaitersOk(Apply(s, step))
  {
    if MovesOneReceiver(step) {
      MoveKeepsWaiters(s, step);
    } else if !TouchesNotifier(step) {
      OtherStepFrame(s, step);
    } else if step.SendNotify? {
      NotifyOneKeepsWaiters(s.(senders := s.senders[step.id := Accepted]));
    } else if step.CloseWake? {
      NotifyWaitersKeepsWaiters(s.(closers := s.closers[step.id := Finished]));
    } else if step.NotifyAll? {
      NotifyWaitersKeepsWaiters(s);
    } else if step.RecvLeave? {
      LeaveKeepsWaiters(s, step.id);
    } else {
      EnableKeepsWaiters(s, step.id);
    }
  }

  // ----- No lost wake-up ------------------------------------------------------------------

  /** Senders between their push and their `notify_one`. */
  ghost function Pending<T>(senders: map<nat, Sender<T>>): set<nat> {
    set i | i in senders && senders[i].Notifying?
  }

  /** Receivers holding a `notify_one` wake-up they have not consumed. */
  ghost function Notified<T>(rs: map<nat, Receiver<T>>): set<nat> {
    set r | r in rs && rs[r].future == Waiting(One)
  }

  /** Receivers that consumed a `notify_one` wake-up and have yet to check the queue. */
  ghost function Woken<T>(rs: map<nat, Receiver<T>>): set<nat> {
    set r | r in rs && rs[r].woken
  }

  /** A receiver that found the queue empty and has not been notified since. */
  ghost predicate Settled<T>(rs: map<nat, Receiver<T>>, r: nat) {
    r in rs && IsSettled(rs[r])
  }

  ghost predicate IsSettled<T>(v: Receiver<T>) {
    v.future == Waiting(Unnotified) && (v.pc.CheckingClosed? || v.pc.Awaiting?)
  }

  ghost predicate Covered<T>(queued: nat, pending: nat, rs: map<nat, Receiver<T>>) {
    (exists r :: Settled(rs, r)) ==> queued <= pending + |Notified(rs)| + |Woken(rs)|
  }

  /** While some receiver is settled, each queued message is matched by a wake-up on its way. */
  ghost predicate Budget<T>(s: State<T>) {
    Covered(|s.queue|, |Pending(s.senders)|, s.receivers)
  }

  lemma {:induction false} RetainShrinks<T>(q: seq<Entry<T>>, drop: T -> bool)
    ensures |Retain(q, drop)| <= |q|
  {
    if q != [] { RetainShrinks(q[1..], drop); }
  }

  lemma CardExcept(a: set<nat>, b: set<nat>, r: nat)
    requires a - {r} == b - {r}
    ensures |a| - (if r in a then 1 else 0) == |b| - (if r in b then 1 else 0)
  {
    assert |a - {r}| == |a| - (if r in a then 1 else 0);
    assert |b - {r}| == |b| - (if r in b then 1 else 0);
  }

  /** How the wake-up counts change when one receiver is replaced by `v`. */
  lemma ReplaceCounts<T>(rs: map<nat, Receiver<T>>, r: nat, v: Receiver<T>, after: map<nat, Receiver<T>>)
    requires after == rs[r := v]
    ensures |Notified(after)| ==
            |Notified(rs)| - (if r in rs && rs[r].future == Waiting(One) then 1 else 0)
            + (if v.future == Waiting(One) then 1 else 0)
    ensures |Woken(after)| ==
            |Woken(rs)| - (if r in rs && rs[r].woken then 1 else 0) + (if v.woken then 1 else 0)
    ensures (exists x :: Settled(after, x)) && (!IsSettled(v) || Settled(rs, r)) ==>
            exists x :: Settled(rs, x)
  {
    CardExcept(Notified(after), Notified(rs), r);
    CardExcept(Woken(after), Woken(rs), r);
    if x :| Settled(after, x) && !IsSettled(v) {
      assert Settled(rs, x);
    }
  }

  lemma NotifyOneBudget<T>(s: State<T>, queued: nat, pending: nat)
    requires WaitersOk(s)
    requires Covered(queued, pending + 1, s.receivers)
    ensures Covered(queued, pending, NotifyOne(s).receivers)
  {
    if s.waiters != [] {
      var w := s.waiters[0];
      assert w in s.waiters;
      var v := s.receivers[w].(future := Waiting(One));
      ReplaceCounts(s.receivers, w, v, s.receivers[w := v]);
    } else {
      assert forall q :: !Settled(s.receivers, q);
    }
  }

  lemma SendNotifyBudget<T(!new)>(s: State<T>, i: nat)
    requires WaitersOk(s) && Budget(s) && Enabled(s, SendNotify(i))
    ensures Budget(Apply(s, SendNotify(i)))
  {
    var u := s.(senders := s.senders[i := Accepted]);
    assert Pending(u.senders) == Pending(s.senders) - {i} && i in Pending(s.senders);
    NotifyOneBudget(u, |s.queue|, |Pending(u.senders)|);
    assert NotifyOne(u).senders == u.senders && NotifyOne(u).queue == s.queue;
  }

  lemma SendBudget<T(!new)>(s: State<T>, step: Step<T>)
    requires Budget(s) && Enabled(s, step)
    requires step.SendStart? || step.SendLoad? || step.SendPush?
    ensures Budget(Apply(s, step))
  {
    var t := Apply(s, step);
    CardExcept(Pending(t.senders), Pending(s.senders), step.id);
  }

  lemma LeaveBudget<T(!new)>(s: State<T>, r: nat)
    requires WaitersOk(s) && Budget(s) && Enabled(s, RecvLeave(r))
    ensures Budget(Apply(s, RecvLeave(r)))
  {
    var v := s.receivers[r].(pc := Returned(s.receivers[r].pc.outcome));
    var d := s.(receivers := s.receivers[r := v.(future := Done)]);
    assert s.receivers[r := v][r := v.(future := Done)] == d.receivers;
    DoneBudget(s, r, v.(future := Done));
    if s.receivers[r].future == Waiting(One) {
      ReplaceKeepsList(s.waiters, s.permit, s.receivers, r, v.(future := Done));
      NotifyOneBudget(d, |s.queue|, |Pending(s.senders)|);
    }
  }

  /** A receiver that holds no wake-up any more leaves the budget short by the one it held. */
  lemma DoneBudget<T>(s: State<T>, r: nat, v: Receiver<T>)
    requires Budget(s) && r in s.receivers && v.future.Done? && (s.receivers[r].woken ==> v.woken)
    ensures var held := if s.receivers[r].future == Waiting(One) then 1 else 0;
            Covered(|s.queue|, |Pending(s.senders)| + held, s.receivers[r := v])
  {
    ReplaceCounts(s.receivers, r, v, s.receivers[r := v]);
  }

  lemma EnableBudget<T(!new)>(s: State<T>, r: nat)
    requires WaitersOk(s) && Budget(s) && Enabled(s, RecvEnable(r))
    ensures Budget(Enable(s, r))
  {
    var t := Enable(s, r);
    ReplaceCounts(s.receivers, r, t.receivers[r], t.receivers);
  }

  lemma MoveBudget<T(!new)>(s: State<T>, step: Step<T>)
    requires WaitersOk(s) && Budget(s) && Enabled(s, step) && MovesOneReceiver(step)
    ensures Budget(Apply(s, step))
  {
    var t := Apply(s, step);
    var v := t.receivers[step.id];
    assert t.senders == s.senders && t.receivers == s.receivers[step.id := v];
    assert step.id in s.receivers ==> PcMatchesFuture(s.receivers[step.id]);
    ReplaceCounts(s.receivers, step.id, v, t.receivers);
  }

  lemma WakeAllBudget<T>(s: State<T>)
    requires WaitersOk(s)
    ensures forall x :: !Settled(NotifyWaiters(s).receivers, x)
  {
  }

  lemma StepKeepsBudget<T(!new)>(s: State<T>, step: Step<T>)
    requires WaitersOk(s) && Budget(s) && Enabled(s, step)
    ensures Budget(Apply(s, step))
  {
    if step.SendStart? || step.SendLoad? || step.SendPush? {
      SendBudget(s, step);
    } else if step.SendNotify? {
      SendNotifyBudget(s, step.id);
    } else if MovesOneReceiver(step) {
      MoveBudget(s, step);
    } else if step.RecvLeave? {
      LeaveBudget(s, step.id);
    } else if step.RecvEnable? {
      EnableBudget(s, step.id);
    } else if step.CloseWake? {
      WakeAllBudget(s.(closers := s.closers[step.id := Finished]));
    } else if step.NotifyAll? {
      WakeAllBudget(s);
    } else if step.Flush? {
      RetainShrinks(s.queue, step.drop);
    }
  }

  // ----- Closing --------------------------------------------------------------------------

  ghost predicate Asleep<T>(rs: map<nat, Receiver<T>>, r: nat) {
    r in rs && IsAsleep(rs[r])
  }

  ghost predicate IsAsleep<T>(v: Receiver<T>) {
    v.future == Waiting(Unnotified) && v.pc.Awaiting?
  }

  /** The flag is up once some close stored it; while a receiver sleeps although the flag is up,
      the close that raised it has not finished and its wake-up is still to come. */
  ghost predicate CloseOk<T>(s: State<T>) {
    && (forall c | c in s.closers :: s.closers[c].Storing? || s.closed)
    && (s.closed && (exists r :: Asleep(s.receivers, r)) ==>
          && (forall c | c in s.closers :: !s.closers[c].Finished?)
          && (exists c :: c in s.closers && s.closers[c].Waking?))
  }

  lemma CloseKeepsClose<T(!new)>(s: State<T>, step: Step<T>)
    requires WaitersOk(s) && CloseOk(s) && Enabled(s, step)
    requires step.CloseStart? || step.CloseStore? || step.CloseWake? || step.NotifyAll?
    ensures CloseOk(Apply(s, step))
  {
    var t := Apply(s, step);
    if step.CloseWake? || step.NotifyAll? {
      assert forall x :: !Asleep(t.receivers, x);
    } else if step.CloseStore? {
      assert t.closers[step.id].Waking?;
    } else if t.closed && exists r :: Asleep(s.receivers, r) {
      var c :| c in s.closers && s.closers[c].Waking?;
      assert t.closers[c].Waking?;
    }
  }

  lemma WakingPutsNoneToSleep<T>(s: State<T>, r: nat)
    ensures Asleep(NotifyOne(s).receivers, r) ==> Asleep(s.receivers, r)
    ensures Asleep(NotifyWaiters(s).receivers, r) ==> Asleep(s.receivers, r)
  {
  }

  lemma DroppingPutsNoneToSleep<T>(s: State<T>, q: nat, r: nat)
    requires q in s.receivers
    ensures Asleep(DropFuture(s, q).receivers, r) ==> Asleep(s.receivers, r)
  {
    WakingPutsNoneToSleep(s.(receivers := s.receivers[q := s.receivers[q].(future := Done)]), r);
  }

  lemma SleepersStem<T(!new)>(s: State<T>, step: Step<T>, r: nat)
    requires Enabled(s, step) && Asleep(Apply(s, step).receivers, r)
    ensures Asleep(s.receivers, r) || (step == RecvCheckClosed(r) && !s.closed)
  {
    if MovesOneReceiver(step) {
      MoveFrame(s, step);
    } else if !TouchesNotifier(step) {
      OtherStepFrame(s, step);
    } else {
      match step
      case SendNotify(i) => WakingPutsNoneToSleep(s.(senders := s.senders[i := Accepted]), r);
      case CloseWake(c) => WakingPutsNoneToSleep(s.(closers := s.closers[c := Finished]), r);
      case NotifyAll => WakingPutsNoneToSleep(s, r);
      case RecvLeave(q) =>
        var v := s.receivers[q].(pc := Returned(s.receivers[q].pc.outcome));
        DroppingPutsNoneToSleep(s.(receivers := s.receivers[q := v]), q, r);
      case RecvEnable(_) =>
    }
  }

  lemma StepKeepsClose<T(!new)>(s: State<T>, step: Step<T>)
    requires WaitersOk(s) && CloseOk(s) && Enabled(s, step)
    ensures CloseOk(Apply(s, step))
  {
    if step.CloseStart? || step.CloseStore? || step.CloseWake? || step.NotifyAll? {
      CloseKeepsClose(s, step);
    } else {
      var t := Apply(s, step);
      assert t.closed == s.closed && t.closers == s.closers;
      if r :| Asleep(t.receivers, r) {
        SleepersStem(s, step, r);
      }
    }
  }

  // ----- Conservation and order of messages -----------------------------------------------

  ghost function Count<T>(q: seq<Entry<T>>, ticket: nat): nat {
    if q == [] then 0 else (if q[0].ticket == ticket then 1 else 0) + Count(q[1..], ticket)
  }

  ghost predicate Ascending<T>(q: seq<Entry<T>>) {
    forall i, j | 0 <= i < j < |q| :: q[i].ticket < q[j].ticket
  }

  ghost predicate Genuine<T>(q: seq<Entry<T>>, accepted: seq<T>) {
    forall i | 0 <= i < |q| :: q[i].ticket < |accepted| && q[i].msg == accepted[q[i].ticket]
  }

  ghost predicate Before<T>(a: seq<Entry<T>>, b: seq<Entry<T>>) {
    forall i, j | 0 <= i < |a| && 0 <= j < |b| :: a[i].ticket < b[j].ticket
  }

  /** Ticket `t` is in exactly one of the three places if it was issued, and nowhere otherwise. */
  ghost predicate Balanced<T>(s: State<T>, t: nat) {
    Count(s.taken, t) + Count(s.flushed, t) + Count(s.queue, t) == if t < |s.accepted| then 1 else 0
  }

  ghost predicate Conserved<T>(s: State<T>) {
    forall t :: Balanced(s, t)
  }

  ghost predicate Ordered<T>(s: State<T>) {
    && Genuine(s.queue, s.accepted) && Genuine(s.taken, s.accepted) && Genuine(s.flushed, s.accepted)
    && Ascending(s.queue) && Ascending(s.taken) && Before(s.taken, s.queue)
  }

  /** The message a `recv` call is about to return or has returned, if any. */
  ghost predicate Delivered<T>(v: Receiver<T>, e: Entry<T>) {
    (v.pc.Leaving? || v.pc.Returned?) && v.pc.outcome == Message(e)
  }

  ghost predicate DeliveriesOk<T(!new)>(rs: map<nat, Receiver<T>>, taken: seq<Entry<T>>) {
    && (forall r, e | r in rs && Delivered(rs[r], e) :: e in taken)
    && (forall r1, r2, e | r1 in rs && r2 in rs && Delivered(rs[r1], e) && Delivered(rs[r2], e) :: r1 == r2)
  }

  lemma {:induction false} CountConcat<T>(a: seq<Entry<T>>, b: seq<Entry<T>>, t: nat)
    ensures Count(a + b, t) == Count(a, t) + Count(b, t)
  {
    if a == [] {
      assert a + b == b;
    } else {
      CountConcat(a[1..], b, t);
      assert (a + b)[1..] == a[1..] + b;
    }
  }

  lemma {:induction false} RetainSplits<T>(q: seq<Entry<T>>, drop: T -> bool, keep: T -> bool, t: nat)
    requires forall i | 0 <= i < |q| :: keep(q[i].msg) == !drop(q[i].msg)
    ensures Count(Retain(q, drop), t) + Count(Retain(q, keep), t) == Count(q, t)
  {
    if q != [] {
      RetainSplits(q[1..], drop, keep, t);
      CountConcat([q[0]], Retain(q[1..], drop), t);
      CountConcat([q[0]], Retain(q[1..], keep), t);
    }
  }

  lemma RetainCons<T>(x: Entry<T>, rest: seq<Entry<T>>, bound: seq<Entry<T>>, accepted: seq<T>)
    requires Ascending(rest) && Before(bound + [x], rest) && Genuine(rest, accepted)
    requires Genuine([x], accepted) && Before(bound, [x])
    ensures Ascending([x] + rest) && Before(bound, [x] + rest) && Genuine([x] + rest, accepted) && Before(bound, rest)
  {
    forall j | 0 <= j < |rest| ensures x.ticket < rest[j].ticket {
      assert (bound + [x])[|bound|] == x;
    }
    forall i, j | 0 <= i < |bound| && 0 <= j < |rest| ensures bound[i].ticket < rest[j].ticket {
      assert (bound + [x])[i] == bound[i];
    }
  }

  lemma {:induction false} RetainIsSubsequence<T>(q: seq<Entry<T>>, drop: T -> bool, bound: seq<Entry<T>>,
                                                  accepted: seq<T>)
    requires Ascending(q) && Before(bound, q) && Genuine(q, accepted)
    ensures Ascending(Retain(q, drop)) && Before(bound, Retain(q, drop)) && Genuine(Retain(q, drop), accepted)
  {
    if q != [] {
      assert Before(bound + [q[0]], q[1..]);
      RetainIsSubsequence(q[1..], drop, bound + [q[0]], accepted);
      RetainCons(q[0], Retain(q[1..], drop), bound, accepted);
    }
  }

  ghost predicate MovesMessages<T>(step: Step<T>) {
    step.SendPush? || step.Flush? || step.TryRecv? || step.RecvCheck?
  }

  lemma HistoryFrame<T(!new)>(s: State<T>, step: Step<T>)
    requires Enabled(s, step) && !MovesMessages(step)
    ensures var u := Apply(s, step);
            u.queue == s.queue && u.taken == s.taken && u.flushed == s.flushed && u.accepted == s.accepted
  {
    if TouchesNotifier(step) {
      NotifierHistory(s, step);
    } else if MovesOneReceiver(step) {
      MoveHistory(s, step);
    } else {
      OtherHistory(s, step);
    }
  }

  lemma DropHistory<T>(s: State<T>, r: nat)
    requires r in s.receivers
    ensures var u := DropFuture(s, r);
            u.queue == s.queue && u.taken == s.taken && u.flushed == s.flushed && u.accepted == s.accepted
  {
  }

  lemma NotifierHistory<T(!new)>(s: State<T>, step: Step<T>)
    requires Enabled(s, step) && TouchesNotifier(step)
    ensures var u := Apply(s, step);
            u.queue == s.queue && u.taken == s.taken && u.flushed == s.flushed && u.accepted == s.accepted
  {
    if step.RecvLeave? {
      var v := s.receivers[step.id];
      DropHistory(s.(receivers := s.receivers[step.id := v.(pc := Returned(v.pc.outcome))]), step.id);
    }
  }

  lemma MoveHistory<T(!new)>(s: State<T>, step: Step<T>)
    requires Enabled(s, step) && MovesOneReceiver(step) && !MovesMessages(step)
    ensures var u := Apply(s, step);
            u.queue == s.queue && u.taken == s.taken && u.flushed == s.flushed && u.accepted == s.accepted
  {
  }

  lemma OtherHistory<T(!new)>(s: State<T>, step: Step<T>)
    requires Enabled(s, step) && !TouchesNotifier(step) && !MovesOneReceiver(step) && !MovesMessages(step)
    ensures var u := Apply(s, step);
            u.queue == s.queue && u.taken == s.taken && u.flushed == s.flushed && u.accepted == s.accepted
  {
  }

  lemma StepConserves<T(!new)>(s: State<T>, step: Step<T>, t: nat)
    requires Balanced(s, t) && Enabled(s, step)
    ensures Balanced(Apply(s, step), t)
  {
    if !MovesMessages(step) {
      HistoryFrame(s, step);
    } else if step.SendPush? {
      CountConcat(s.queue, [Entry(|s.accepted|, s.senders[step.id].msg)], t);
    } else if step.Flush? {
      var keep := (m: T) => !step.drop(m);
      CountConcat(s.flushed, Retain(s.queue, keep), t);
      RetainSplits(s.queue, step.drop, keep, t);
    } else if s.queue != [] {
      CountConcat(s.taken, [s.queue[0]], t);
    }
  }

  lemma PopKeepsOrder<T>(s: State<T>, u: State<T>)
    requires Ordered(s) && s.queue != []
    requires u.queue == s.queue[1..] && u.taken == s.taken + [s.queue[0]]
    requires u.flushed == s.flushed && u.accepted == s.accepted
    ensures Ordered(u)
  {
  }

  lemma StepKeepsOrder<T(!new)>(s: State<T>, step: Step<T>)
    requires Ordered(s) && Enabled(s, step)
    ensures Ordered(Apply(s, step))
  {
    if !MovesMessages(step) {
      HistoryFrame(s, step);
    } else if step.Flush? {
      var keep := (m: T) => !step.drop(m);
      RetainIsSubsequence(s.queue, step.drop, s.taken, s.accepted);
      RetainIsSubsequence(s.queue, keep, s.taken, s.accepted);
    } else if !step.SendPush? && s.queue != [] {
      PopKeepsOrder(s, Apply(s, step));
    }
  }

  /** Notifications and dropped futures leave every program counter alone. */
  lemma NotifyKeepsPc<T>(s: State<T>, r: nat)
    ensures NotifyOne(s).receivers.Keys == s.receivers.Keys == NotifyWaiters(s).receivers.Keys
    ensures r in s.receivers ==>
              NotifyOne(s).receivers[r].pc == s.receivers[r].pc == NotifyWaiters(s).receivers[r].pc
  {
  }

  lemma ForeignStepKeepsPc<T(!new)>(s: State<T>, step: Step<T>, r: nat)
    requires Enabled(s, step) && !step.OfReceiver(r) && r in Apply(s, step).receivers
    ensures r in s.receivers && s.receivers[r].pc == Apply(s, step).receivers[r].pc
  {
    if MovesOneReceiver(step) {
      MoveFrame(s, step);
    } else if !TouchesNotifier(step) {
      OtherStepFrame(s, step);
    } else {
      match step
      case SendNotify(i) => NotifyKeepsPc(s.(senders := s.senders[i := Accepted]), r);
      case CloseWake(c) => NotifyKeepsPc(s.(closers := s.closers[c := Finished]), r);
      case NotifyAll => NotifyKeepsPc(s, r);
      case RecvLeave(_) =>
      case RecvEnable(_) =>
    }
  }

  lemma DeliveriesStem<T(!new)>(s: State<T>, step: Step<T>, r: nat, e: Entry<T>)
    requires Enabled(s, step) && !step.RecvCheck?
    requires r in Apply(s, step).receivers && Delivered(Apply(s, step).receivers[r], e)
    ensures r in s.receivers && Delivered(s.receivers[r], e)
  {
    if !step.OfReceiver(r) { ForeignStepKeepsPc(s, step, r); }
  }

  lemma TakenOnlyGrows<T(!new)>(s: State<T>, step: Step<T>)
    requires Enabled(s, step)
    ensures s.taken <= Apply(s, step).taken
  {
    if !MovesMessages(step) { HistoryFrame(s, step); }
  }

  lemma CheckDeliversFresh<T(!new)>(s: State<T>, r: nat)
    requires Ordered(s) && DeliveriesOk(s.receivers, s.taken) && Enabled(s, RecvCheck(r))
    ensures var t := Check(s, r); DeliveriesOk(t.receivers, t.taken)
  {
    var t := Check(s, r);
    if s.queue != [] {
      assert s.queue[0] !in s.taken;
      assert t.taken[|s.taken|] == s.queue[0];
      forall q, e | q in t.receivers && Delivered(t.receivers[q], e)
        ensures (q == r && e == s.queue[0]) || (q != r && e in s.taken)
      {
      }
    }
  }

  lemma StepKeepsDeliveries<T(!new)>(s: State<T>, step: Step<T>)
    requires Ordered(s) && DeliveriesOk(s.receivers, s.taken) && Enabled(s, step)
    ensures var t := Apply(s, step); DeliveriesOk(t.receivers, t.taken)
  {
    if step.RecvCheck? {
      CheckDeliversFresh(s, step.id);
    } else {
      var t := Apply(s, step);
      TakenOnlyGrows(s, step);
      forall r, e | r in t.receivers && Delivered(t.receivers[r], e)
        ensures r in s.receivers && Delivered(s.receivers[r], e)
      {
        DeliveriesStem(s, step, r, e);
      }
    }
  }

  // ----- Whole runs -----------------------------------------------------------------------

  ghost predicate Inv<T(!new)>(s: State<T>) {
    WaitersOk(s) && Budget(s) && CloseOk(s) && Conserved(s) && Ordered(s)
    && DeliveriesOk(s.receivers, s.taken)
  }

  lemma StepKeepsInv<T(!new)>(s: State<T>, step: Step<T>)
    requires Inv(s) && Enabled(s, step)
    ensures Inv(Apply(s, step))
  {
    StepKeepsWaiters(s, step);
    StepKeepsBudget(s, step);
    StepKeepsClose(s, step);
    forall t ensures Balanced(Apply(s, step), t) { StepConserves(s, step, t); }
    StepKeepsOrder(s, step);
    StepKeepsDeliveries(s, step);
  }

  lemma {:induction false} RunKeepsInv<T(!new)>(states: seq<State<T>>, steps: seq<Step<T>>, k: nat)
    requires IsRun(states, steps) && k < |states|
    ensures Inv(states[k])
  {
    if k == 0 {
      RunStart(states, steps);
    } else {
      RunKeepsInv(states, steps, k - 1);
      RunStep(states, steps, k - 1);
      StepKeepsInv(states[k - 1], steps[k - 1]);
    }
  }

  /** In every run, a receiver that went to sleep on an empty queue never misses a message: each
      message queued since is matched by a sender about to notify or by another receiver that
      holds a wake-up and will check the queue or pass it on. */
  lemma NoLostWakeup<T(!new)>(states: seq<State<T>>, steps: seq<Step<T>>, k: nat, r: nat)
    requires IsRun(states, steps) && k < |states|
    requires Settled(states[k].receivers, r)
    ensures var s := states[k];
            && |s.queue| <= |Pending(s.senders)| + |Notified(s.receivers)| + |Woken(s.receivers)|
            && r !in Notified(s.receivers) && r !in Woken(s.receivers)
            && (s.queue != [] ==>
                  || Pending(s.senders) != {}
                  || exists q :: q != r && (q in Notified(s.receivers) || q in Woken(s.receivers)))
  {
    RunKeepsInv(states, steps, k);
    var s := states[k];
    assert PcMatchesFuture(s.receivers[r]);
    if s.queue != [] && Pending(s.senders) == {} {
      assert Notified(s.receivers) + Woken(s.receivers) != {};
      var q :| q in Notified(s.receivers) + Woken(s.receivers);
      assert q != r && (q in Notified(s.receivers) || q in Woken(s.receivers));
    }
  }

  /** After any completed `close`, no receiver sleeps. */
  lemma CloseWakesAll<T(!new)>(states: seq<State<T>>, steps: seq<Step<T>>, k: nat, c: nat, r: nat)
    requires IsRun(states, steps) && k < |states|
    requires c in states[k].closers && states[k].closers[c].Finished?
    ensures states[k].closed && !Asleep(states[k].receivers, r)
  {
    RunKeepsInv(states, steps, k);
  }

  ghost predicate Quiescent<T(!new)>(s: State<T>) {
    forall step: Step<T> :: step.Internal() ==> !Enabled(s, step)
  }

  lemma QuietReceiver<T(!new)>(s: State<T>, q: nat)
    requires Quiescent(s) && q in s.receivers && PcMatchesFuture(s.receivers[q])
    ensures s.receivers[q].pc.Returned? || Asleep(s.receivers, q)
  {
    var e: Step<T>, c: Step<T>, d: Step<T> := RecvEnable(q), RecvCheck(q), RecvCheckClosed(q);
    var a: Step<T>, t: Step<T>, l: Step<T> := RecvAwait(q), RecvReset(q), RecvLeave(q);
    assert !Enabled(s, e) && !Enabled(s, c) && !Enabled(s, d);
    assert !Enabled(s, a) && !Enabled(s, t) && !Enabled(s, l);
  }

  /** When no call in progress can move, every unfinished `recv` sleeps on an empty queue of a
      channel that is not closed. */
  lemma QuiescentMeansDrained<T(!new)>(states: seq<State<T>>, steps: seq<Step<T>>, k: nat, r: nat)
    requires IsRun(states, steps) && k < |states|
    requires Quiescent(states[k])
    requires r in states[k].receivers && !states[k].receivers[r].pc.Returned?
    ensures Asleep(states[k].receivers, r) && states[k].queue == [] && !states[k].closed
  {
    RunKeepsInv(states, steps, k);
    var s := states[k];
    assert PcMatchesFuture(s.receivers[r]);
    forall q | q in s.receivers ensures s.receivers[q].pc.Returned? || Asleep(s.receivers, q) {
      QuietReceiver(s, q);
    }
    if s.queue != [] {
      NoLostWakeup(states, steps, k, r);
      forall i | i in s.senders ensures !s.senders[i].Notifying? {
        var n: Step<T> := SendNotify(i);
        assert !Enabled(s, n);
      }
      assert false;
    }
    if s.closed {
      var c :| c in s.closers && s.closers[c].Waking?;
      var w: Step<T> := CloseWake(c);
      assert Enabled(s, w);
      assert false;
    }
  }

  /** In every run the accepted messages are exactly the disjoint union of the received, the
      flushed and the still queued ones, and receivers take them in the order they were sent. */
  lemma Conservation<T(!new)>(states: seq<State<T>>, steps: seq<Step<T>>, k: nat, t: nat)
    requires IsRun(states, steps) && k < |states|
    ensures var s := states[k];
            && Count(s.taken, t) + Count(s.flushed, t) + Count(s.queue, t) == (if t < |s.accepted| then 1 else 0)
            && Genuine(s.taken, s.accepted) && Genuine(s.flushed, s.accepted) && Genuine(s.queue, s.accepted)
            && Ascending(s.taken) && Ascending(s.queue) && Before(s.taken, s.queue)
  {
    RunKeepsInv(states, steps, k);
    assert Balanced(states[k], t);
  }

  /** No message is returned by two `recv` calls. */
  lemma DeliveredOnce<T(!new)>(states: seq<State<T>>, steps: seq<Step<T>>, k: nat, r1: nat, r2: nat, e: Entry<T>)
    requires IsRun(states, steps) && k < |states|
    requires r1 in states[k].receivers && Delivered(states[k].receivers[r1], e)
    requires r2 in states[k].receivers && Delivered(states[k].receivers[r2], e)
    ensures r1 == r2 && e in states[k].taken
  {
    RunKeepsInv(states, steps, k);
  }

  // ----- A receiver fails only after an empty queue and then a closed flag ------------------

  /** At step `i` receiver `r` found the queue empty, and it took no step from then until `k`. */
  ghost predicate SawEmpty<T(!new)>(states: seq<State<T>>, steps: seq<Step<T>>, r: nat, i: nat, k: nat)
    requires |states| == |steps| + 1
  {
    && i < k <= |steps| && steps[i].RecvCheck? && steps[i].id == r && states[i].queue == []
    && forall j | i < j < k :: !steps[j].OfReceiver(r)
  }

  lemma EnteringCheckingClosed<T(!new)>(s: State<T>, step: Step<T>, r: nat)
    requires Enabled(s, step) && step.OfReceiver(r) && At(Apply(s, step), r, CheckingClosed)
    ensures step.RecvCheck? && s.queue == []
  {
  }

  lemma CheckingClosedStems<T(!new)>(states: seq<State<T>>, steps: seq<Step<T>>, k: nat, r: nat)
    requires IsRun(states, steps) && k < |steps| && At(states[k + 1], r, CheckingClosed)
    ensures if steps[k].OfReceiver(r) then steps[k].RecvCheck? && states[k].queue == []
            else At(states[k], r, CheckingClosed)
  {
    RunStep(states, steps, k);
    if steps[k].OfReceiver(r) {
      EnteringCheckingClosed(states[k], steps[k], r);
    } else {
      ForeignStepKeepsPc(states[k], steps[k], r);
    }
  }

  lemma {:induction false} CheckingClosedSawEmpty<T(!new)>(states: seq<State<T>>, steps: seq<Step<T>>, k: nat, r: nat)
    returns (i: nat)
    requires IsRun(states, steps) && k < |states|
    requires At(states[k], r, CheckingClosed)
    ensures SawEmpty(states, steps, r, i, k)
  {
    if k == 0 {
      RunStart(states, steps);
      assert false;
    }
    CheckingClosedStems(states, steps, k - 1, r);
    if steps[k - 1].OfReceiver(r) {
      i := k - 1;
    } else {
      i := CheckingClosedSawEmpty(states, steps, k - 1, r);
    }
  }

  ghost predicate Broken<T>(s: State<T>, r: nat) {
    r in s.receivers && (s.receivers[r].pc == Leaving(BrokenPipe) || s.receivers[r].pc == Returned(BrokenPipe))
  }

  lemma BrokenStems<T(!new)>(s: State<T>, step: Step<T>, r: nat)
    requires Enabled(s, step) && Broken(Apply(s, step), r)
    ensures Broken(s, r) || (step.RecvCheckClosed? && step.id == r && s.closed)
  {
    if !step.OfReceiver(r) { ForeignStepKeepsPc(s, step, r); }
  }

  lemma BrokenStemsInRun<T(!new)>(states: seq<State<T>>, steps: seq<Step<T>>, k: nat, r: nat)
    requires IsRun(states, steps) && k < |steps| && Broken(states[k + 1], r)
    ensures || Broken(states[k], r)
            || (steps[k].RecvCheckClosed? && steps[k].id == r && states[k].closed && At(states[k], r, CheckingClosed))
  {
    RunStep(states, steps, k);
    BrokenStems(states[k], steps[k], r);
  }

  /** A `recv` call fails only if it saw the queue empty and, as its very next step, the flag up. */
  lemma {:induction false} FailsOnlyWhenDrainedThenClosed<T(!new)>(
    states: seq<State<T>>, steps: seq<Step<T>>, k: nat, r: nat) returns (i: nat, j: nat)
    requires IsRun(states, steps) && k < |states|
    requires Broken(states[k], r)
    ensures j < k && SawEmpty(states, steps, r, i, j)
    ensures steps[j].RecvCheckClosed? && steps[j].id == r && states[j].closed
  {
    if k == 0 {
      RunStart(states, steps);
      assert false;
    }
    BrokenStemsInRun(states, steps, k - 1, r);
    if Broken(states[k - 1], r) {
      i, j := FailsOnlyWhenDrainedThenClosed(states, steps, k - 1, r);
    } else {
      i := CheckingClosedSawEmpty(states, steps, k - 1, r);
      j := k - 1;
    }
  }

  // ----- Flushing -------------------------------------------------------------------------

  lemma {:induction false} RetainIs<T>(q: seq<Entry<T>>, drop: T -> bool, e: Entry<T>)
    ensures e in Retain(q, drop) <==> e in q && !drop(e.msg)
  {
    if q != [] {
      RetainIs(q[1..], drop, e);
      assert e in q <==> e == q[0] || e in q[1..];
    }
  }

  /** In every run a flush takes exactly the queued messages that its predicate selects: all others stay
      queued, both keep their order, and nothing else of the history changes. */
  lemma FlushTakesSelected<T(!new)>(states: seq<State<T>>, steps: seq<Step<T>>, k: nat, e: Entry<T>)
    requires IsRun(states, steps) && k < |steps| && steps[k].Flush?
    ensures var s, t, selects := states[k], states[k + 1], steps[k].drop;
            && (e in t.queue <==> e in s.queue && !selects(e.msg)) && Ascending(t.queue)
            && s.flushed <= t.flushed
            && (e in t.flushed[|s.flushed|..] <==> e in s.queue && selects(e.msg))
            && Ascending(t.flushed[|s.flushed|..])
            && t.taken == s.taken && t.accepted == s.accepted && t.receivers == s.receivers
  {
    RunKeepsInv(states, steps, k);
    RunStep(states, steps, k);
    var s, drop := states[k], steps[k].drop;
    var keep := (m: T) => !drop(m);
    RetainIs(s.queue, drop, e);
    RetainIs(s.queue, keep, e);
    RetainIsSubsequence(s.queue, drop, [], s.accepted);
    RetainIsSubsequence(s.queue, keep, [], s.accepted);
    assert states[k + 1].flushed[|s.flushed|..] == Retain(s.queue, keep);
  }

  // ----- Receiving ------------------------------------------------------------------------

  /** In every run a look at the queue takes its oldest message, if there is one. */
  lemma TakesOldest<T(!new)>(states: seq<State<T>>, steps: seq<Step<T>>, k: nat)
    requires IsRun(states, steps) && k < |steps| && (steps[k].TryRecv? || steps[k].RecvCheck?)
    ensures var s, t := states[k], states[k + 1];
            if s.queue == [] then t.queue == [] && t.taken == s.taken
            else && |t.queue| == |s.queue| - 1 && |t.taken| == |s.taken| + 1 && s.taken <= t.taken
                 && var e := t.taken[|s.taken|];
                    && e in s.queue && e !in t.queue
                    && forall x | x in s.queue && x != e :: e.ticket < x.ticket && x in t.queue
  {
    RunKeepsInv(states, steps, k);
    RunStep(states, steps, k);
    var q := states[k].queue;
    if q != [] { assert q == [q[0]] + q[1..]; }
  }

  // ----- Sending --------------------------------------------------------------------------

  lemma StepKeepsClosed<T(!new)>(s: State<T>, step: Step<T>)
    requires Enabled(s, step) && s.closed
    ensures Apply(s, step).closed
  {
  }

  /** A call that has not been admitted. */
  ghost predicate NotAdmitted<T>(senders: map<nat, Sender<T>>, id: nat) {
    id in senders ==> senders[id].Loading? || senders[id].Rejected?
  }

  ghost predicate NotRejected<T>(senders: map<nat, Sender<T>>, id: nat) {
    id in senders ==> !senders[id].Rejected?
  }

  /** What a step does to a `send` call: only the load of the flag decides. */
  lemma SenderStep<T(!new)>(s: State<T>, step: Step<T>, id: nat)
    requires Enabled(s, step)
    ensures s.closed && NotAdmitted(s.senders, id) ==> NotAdmitted(Apply(s, step).senders, id)
    ensures !s.closed && NotRejected(s.senders, id) ==> NotRejected(Apply(s, step).senders, id)
  {
  }

  /** In every run a `send` that starts when the channel has been closed is not admitted. */
  lemma {:induction false} SendAfterCloseIsRejected<T(!new)>(states: seq<State<T>>, steps: seq<Step<T>>, i: nat, k: nat,
                                                            id: nat)
    requires IsRun(states, steps) && i <= k < |states| && states[i].closed && id !in states[i].senders
    ensures states[k].closed && NotAdmitted(states[k].senders, id)
    decreases k - i
  {
    if i < k {
      SendAfterCloseIsRejected(states, steps, i, k - 1, id);
      RunStep(states, steps, k - 1);
      StepKeepsClosed(states[k - 1], steps[k - 1]);
      SenderStep(states[k - 1], steps[k - 1], id);
    }
  }

  /** While the channel is open no `send` is rejected. */
  lemma {:induction false} OpenRejectsNothing<T(!new)>(states: seq<State<T>>, steps: seq<Step<T>>, k: nat, id: nat)
    requires IsRun(states, steps) && k < |states| && !states[k].closed
    ensures NotRejected(states[k].senders, id)
  {
    if k == 0 {
      RunStart(states, steps);
    } else {
      RunStep(states, steps, k - 1);
      if states[k - 1].closed { StepKeepsClosed(states[k - 1], steps[k - 1]); }
      OpenRejectsNothing(states, steps, k - 1, id);
      SenderStep(states[k - 1], steps[k - 1], id);
    }
  }

  /** The message a `send` call still holds. */
  ghost function Held<T>(v: Sender<T>): seq<T> {
    match v
    case Loading(m) => [m]
    case Pushing(m) => [m]
    case Rejected(m) => [m]
    case Notifying => []
    case Accepted => []
  }

  lemma HeldStems<T(!new)>(s: State<T>, step: Step<T>, id: nat)
    requires Enabled(s, step) && id in Apply(s, step).senders && Held(Apply(s, step).senders[id]) != []
    ensures var m := Held(Apply(s, step).senders[id])[0];
            step == SendStart(id, m) || (id in s.senders && Held(s.senders[id]) == [m])
  {
    if step.SendStart? {
    } else if step.SendLoad? || step.SendPush? || step.SendNotify? {
      HeldBefore(s, step, id, Apply(s, step).senders[id]);
    } else {
      SendersKept(s, step);
    }
  }

  lemma HeldBefore<T(!new)>(s: State<T>, step: Step<T>, id: nat, v: Sender<T>)
    requires Enabled(s, step) && (step.SendLoad? || step.SendPush? || step.SendNotify?)
    requires id in Apply(s, step).senders && Apply(s, step).senders[id] == v
    ensures id in s.senders && (Held(v) != [] ==> Held(s.senders[id]) == Held(v))
  {
  }

  lemma SendersKept<T(!new)>(s: State<T>, step: Step<T>)
    requires Enabled(s, step) && !step.SendStart? && !step.SendLoad? && !step.SendPush? && !step.SendNotify?
    ensures Apply(s, step).senders == s.senders
  {
    if MovesOneReceiver(step) { MoveFrame(s, step); }
  }

  /** A `send` call holds the message it was given, and gives that message back when it is rejected. */
  lemma {:induction false} HoldsItsMessage<T(!new)>(states: seq<State<T>>, steps: seq<Step<T>>, k: nat, id: nat)
    returns (j: nat)
    requires IsRun(states, steps) && k < |states| && id in states[k].senders && Held(states[k].senders[id]) != []
    ensures j < k && steps[j] == SendStart(id, Held(states[k].senders[id])[0])
  {
    if k == 0 {
      RunStart(states, steps);
      assert false;
    }
    RunStep(states, steps, k - 1);
    HeldStems(states[k - 1], steps[k - 1], id);
    if steps[k - 1] == SendStart(id, Held(states[k].senders[id])[0]) {
      j := k - 1;
    } else {
      j := HoldsItsMessage(states, steps, k - 1, id);
    }
  }

  // ----- No wake-up is made up --------------------------------------------------------------

  /** Wake-ups of `notify_one` that nobody has used yet: the permit and the ones that receivers hold. */
  ghost function Unused<T>(s: State<T>): nat {
    (if s.permit then 1 else 0) + |Notified(s.receivers)|
  }

  /** A receiver takes the permit, or comes out of its sleep by a `notify_one`. */
  ghost predicate Uses<T(!new)>(s: State<T>, step: Step<T>) {
    || (step.RecvEnable? && s.permit)
    || (step.RecvAwait? && step.id in s.receivers && s.receivers[step.id].future == Waiting(One))
  }

  ghost function Used<T(!new)>(states: seq<State<T>>, steps: seq<Step<T>>, k: nat): nat
    requires k <= |steps| < |states|
  {
    if k == 0 then 0 else Used(states, steps, k - 1) + if Uses(states[k - 1], steps[k - 1]) then 1 else 0
  }

  ghost function Notifies<T(!new)>(steps: seq<Step<T>>, k: nat): nat
    requires k <= |steps|
  {
    if k == 0 then 0 else Notifies(steps, k - 1) + if steps[k - 1].SendNotify? then 1 else 0
  }

  lemma NotifyOnePays<T>(s: State<T>)
    requires WaitersOk(s)
    ensures Unused(NotifyOne(s)) <= Unused(s) + 1
  {
    if s.waiters != [] {
      var w := s.waiters[0];
      assert w in s.waiters;
      var v := s.receivers[w].(future := Waiting(One));
      ReplaceCounts(s.receivers, w, v, s.receivers[w := v]);
    }
  }

  lemma LeavePays<T(!new)>(s: State<T>, r: nat)
    requires WaitersOk(s) && Enabled(s, RecvLeave(r))
    ensures Unused(Apply(s, RecvLeave(r))) <= Unused(s)
  {
    var v := s.receivers[r].(pc := Returned(s.receivers[r].pc.outcome));
    var d := s.(receivers := s.receivers[r := v.(future := Done)]);
    assert s.receivers[r := v][r := v.(future := Done)] == d.receivers;
    ReplaceCounts(s.receivers, r, v.(future := Done), d.receivers);
    if s.receivers[r].future == Waiting(One) {
      ReplaceKeepsList(s.waiters, s.permit, s.receivers, r, v.(future := Done));
      NotifyOnePays(d);
    }
  }

  lemma WakeAllPays<T>(s: State<T>)
    requires WaitersOk(s)
    ensures Unused(NotifyWaiters(s)) == Unused(s)
  {
    assert Notified(NotifyWaiters(s).receivers) == Notified(s.receivers);
  }

  lemma MovePays<T(!new)>(s: State<T>, step: Step<T>)
    requires WaitersOk(s) && Enabled(s, step) && (MovesOneReceiver(step) || step.RecvEnable?)
    ensures Unused(Apply(s, step)) + (if Uses(s, step) then 1 else 0) <= Unused(s)
  {
    var t := Apply(s, step);
    var v := t.receivers[step.id];
    assert t.receivers == s.receivers[step.id := v];
    assert step.id in s.receivers ==> PcMatchesFuture(s.receivers[step.id]);
    ReplaceCounts(s.receivers, step.id, v, t.receivers);
  }

  lemma StepPays<T(!new)>(s: State<T>, step: Step<T>)
    requires WaitersOk(s) && Enabled(s, step)
    ensures Unused(Apply(s, step)) + (if Uses(s, step) then 1 else 0) <=
            Unused(s) + if step.SendNotify? then 1 else 0
  {
    if step.SendNotify? {
      NotifyOnePays(s.(senders := s.senders[step.id := Accepted]));
    } else if MovesOneReceiver(step) || step.RecvEnable? {
      MovePays(s, step);
    } else if step.RecvLeave? {
      LeavePays(s, step.id);
    } else if step.CloseWake? {
      WakeAllPays(s.(closers := s.closers[step.id := Finished]));
    } else if step.NotifyAll? {
      WakeAllPays(s);
    } else {
      OtherStepFrame(s, step);
    }
  }

  /** In every run each `notify_one` wakes at most one receiver: the wake-ups used and those still on their way are
      no more than the calls of `notify_one`. */
  lemma {:induction false} WakesAtMostOne<T(!new)>(states: seq<State<T>>, steps: seq<Step<T>>, k: nat)
    requires IsRun(states, steps) && k <= |steps|
    ensures Used(states, steps, k) + Unused(states[k]) <= Notifies(steps, k)
  {
    if k == 0 {
      RunStart(states, steps);
      assert Notified(states[0].receivers) == {};
    } else {
      WakesAtMostOne(states, steps, k - 1);
      RunKeepsInv(states, steps, k - 1);
      RunStep(states, steps, k - 1);
      StepPays(states[k - 1], steps[k - 1]);
    }
  }

  // ----- Waking all -------------------------------------------------------------------------

  /** A future that a `notify_waiters` has reached completes without waiting. */
  ghost predicate IsRoused(f: Future, calls: nat) {
    match f
    case Created(c) => c < calls
    case Waiting(notification) => notification != Unnotified
    case Done => true
  }

  ghost predicate Roused<T>(rs: map<nat, Receiver<T>>, calls: nat, r: nat) {
    r in rs && IsRoused(rs[r].future, calls)
  }

  /** No future was created after more calls of `notify_waiters` than there were. */
  ghost predicate NotAhead<T>(rs: map<nat, Receiver<T>>, calls: nat, r: nat) {
    r in rs && rs[r].future.Created? ==> rs[r].future.calls <= calls
  }

  /** What a step keeps of receiver `r`. */
  ghost predicate KeepsRoused<T>(s: State<T>, t: State<T>, r: nat) {
    && (NotAhead(s.receivers, s.calls, r) ==> NotAhead(t.receivers, t.calls, r))
    && (Roused(s.receivers, s.calls, r) ==> Roused(t.receivers, t.calls, r))
  }

  lemma NotifyOneRouses<T>(s: State<T>, r: nat)
    ensures KeepsRoused(s, NotifyOne(s), r)
  {
  }

  lemma NotifyWaitersRouses<T>(s: State<T>, r: nat)
    ensures KeepsRoused(s, NotifyWaiters(s), r)
    ensures WaitersOk(s) && NotAhead(s.receivers, s.calls, r) && r in s.receivers ==>
              Roused(NotifyWaiters(s).receivers, s.calls + 1, r)
    ensures NotifyWaiters(s).calls == s.calls + 1
  {
  }

  lemma LeaveRouses<T(!new)>(s: State<T>, q: nat, r: nat)
    requires Enabled(s, RecvLeave(q))
    ensures KeepsRoused(s, Apply(s, RecvLeave(q)), r)
  {
    var v := s.receivers[q].(pc := Returned(s.receivers[q].pc.outcome));
    var d := s.(receivers := s.receivers[q := v.(future := Done)]);
    assert s.receivers[q := v][q := v.(future := Done)] == d.receivers;
    NotifyOneRouses(d, r);
  }

  lemma MoveRouses<T(!new)>(s: State<T>, step: Step<T>, r: nat)
    requires Enabled(s, step) && (MovesOneReceiver(step) || step.RecvEnable?)
    ensures !(step.RecvReset? && step.id == r) ==> KeepsRoused(s, Apply(s, step), r)
    ensures NotAhead(s.receivers, s.calls, r) ==> NotAhead(Apply(s, step).receivers, Apply(s, step).calls, r)
  {
  }

  lemma StepKeepsRoused<T(!new)>(s: State<T>, step: Step<T>, r: nat)
    requires Enabled(s, step)
    ensures !(step.RecvReset? && step.id == r) ==> KeepsRoused(s, Apply(s, step), r)
    ensures NotAhead(s.receivers, s.calls, r) ==> NotAhead(Apply(s, step).receivers, Apply(s, step).calls, r)
  {
    if step.SendNotify? {
      NotifyOneRouses(s.(senders := s.senders[step.id := Accepted]), r);
    } else if MovesOneReceiver(step) || step.RecvEnable? {
      MoveRouses(s, step, r);
    } else if step.RecvLeave? {
      LeaveRouses(s, step.id, r);
    } else if step.CloseWake? {
      NotifyWaitersRouses(s.(closers := s.closers[step.id := Finished]), r);
    } else if step.NotifyAll? {
      NotifyWaitersRouses(s, r);
    } else {
      assert Apply(s, step).calls == s.calls;
      OtherStepFrame(s, step);
    }
  }

  lemma {:induction false} NeverAhead<T(!new)>(states: seq<State<T>>, steps: seq<Step<T>>, k: nat, r: nat)
    requires IsRun(states, steps) && k < |states|
    ensures NotAhead(states[k].receivers, states[k].calls, r)
  {
    if k == 0 {
      RunStart(states, steps);
    } else {
      NeverAhead(states, steps, k - 1, r);
      RunStep(states, steps, k - 1);
      StepKeepsRoused(states[k - 1], steps[k - 1], r);
    }
  }

  lemma AllRoused<T(!new)>(states: seq<State<T>>, steps: seq<Step<T>>, j: nat, r: nat)
    requires IsRun(states, steps) && j < |steps| && (steps[j].NotifyAll? || steps[j].CloseWake?)
    requires r in states[j].receivers
    ensures Roused(states[j + 1].receivers, states[j + 1].calls, r)
  {
    RunKeepsInv(states, steps, j);
    RunStep(states, steps, j);
    NeverAhead(states, steps, j, r);
    var s, step := states[j], steps[j];
    NotifyWaitersRouses(if step.CloseWake? then s.(closers := s.closers[step.id := Finished]) else s, r);
  }

  /** In every run `notify_waiters`, alone or in a `close`, reaches every `recv` in progress, even one that has not
      yet registered: it does not sleep before it has made itself a new future. */
  lemma {:induction false} NotifyAllReaches<T(!new)>(states: seq<State<T>>, steps: seq<Step<T>>, j: nat, k: nat, r: nat)
    requires IsRun(states, steps) && j < k < |states| && (steps[j].NotifyAll? || steps[j].CloseWake?)
    requires r in states[j].receivers && forall i | j < i < k :: !(steps[i].RecvReset? && steps[i].id == r)
    ensures Roused(states[k].receivers, states[k].calls, r) && !Asleep(states[k].receivers, r)
    decreases k
  {
    if k == j + 1 {
      AllRoused(states, steps, j, r);
    } else {
      NotifyAllReaches(states, steps, j, k - 1, r);
      RunStep(states, steps, k - 1);
      StepKeepsRoused(states[k - 1], steps[k - 1], r);
    }
  }
}
