/**
  Every interleaving of session checks, inventory refreshes and account changes.
  A caller is a process between two critical sections; a step is one critical section,
  one wake-up, or one change made by the environment.
 */
module GCSessionRuns {
  import opened Prelude
  import opened GCSessions

  type Pid = nat

  datatype Proc =
    | Entering(app: nat)
    | Waiting(app: nat, key: Key, ctx: Ctx, chan: Chan)
    | Checking(app: nat, key: Key, ctx: Ctx, chan: Chan)
    | Refreshing(requestKey: Key, begun: nat)
    | Returned(error: Option<Error>)
    | Refreshed(ended: RefreshEnded)

  /** `changes` counts the account activations and invalidations so far. */
  datatype Sys = Sys(svc: State, procs: map<Pid, Proc>, changes: nat)

  datatype Step =
    | Call(pid: Pid, app: nat)
    | Enter(pid: Pid)
    | CallerGone(pid: Pid)
    | AccountGone(pid: Pid)
    | Wake(pid: Pid)
    | Finish(pid: Pid, requestErr: Option<Error>)
    | BeginRefresh(pid: Pid)
    | EndRefresh(pid: Pid, fetched: Result<seq<nat>, Error>)
    | Mark(app: nat)
    | Peek(app: nat)
    | ActivateAccount(nextSteamID: string)
    | InvalidateAccount
    | SetConnection(connection: Connection)
    | Tick(elapsed: nat)

  predicate SupportedApp(app: nat) {
    app == CS2 || app == 440 || app == 570
  }

  predicate Enabled(s: Sys, step: Step) {
    match step
    case Call(p, _) => p !in s.procs
    case Enter(p) => p in s.procs && s.procs[p].Entering?
    case CallerGone(p) => p in s.procs && s.procs[p].Waiting?
    case AccountGone(p) => p in s.procs && s.procs[p].Waiting? && s.procs[p].ctx in s.svc.cancelled
    case Wake(p) => p in s.procs && s.procs[p].Waiting? && s.procs[p].chan in s.svc.closed
    case Finish(p, requestErr) =>
      p in s.procs && s.procs[p].Checking? &&
      (!SupportedApp(s.procs[p].app) ==> requestErr == Some(UnsupportedApp))
    case BeginRefresh(p) => p !in s.procs
    case EndRefresh(p, _) => p in s.procs && s.procs[p].Refreshing?
    case _ => true
  }

  function Next(s: Sys, step: Step): Sys
    requires Enabled(s, step)
  {
    match step
    case Call(p, app) => s.(procs := s.procs[p := Entering(app)])
    case Enter(p) =>
      var app := s.procs[p].app;
      var (svc, entered) := EnsureEnter(s.svc, app);
      var proc := match entered
        case Return(e) => Returned(e)
        case Wait(key, ctx, chan) => Waiting(app, key, ctx, chan)
        case Own(key, ctx, chan) => Checking(app, key, ctx, chan);
      s.(svc := svc, procs := s.procs[p := proc])
    case CallerGone(p) => s.(procs := s.procs[p := Returned(Some(CallerCancelled))])
    case AccountGone(p) => s.(procs := s.procs[p := Returned(Some(SupersededByAccountChange))])
    case Wake(p) =>
      var proc := match EnsureWake(s.svc, s.procs[p].key)
        case Retry => Entering(s.procs[p].app)
        case Done(e) => Returned(e);
      s.(procs := s.procs[p := proc])
    case Finish(p, requestErr) =>
      var (svc, e) := EnsureFinish(s.svc, s.procs[p].app, s.procs[p].key, s.procs[p].chan, requestErr);
      s.(svc := svc, procs := s.procs[p := Returned(e)])
    case BeginRefresh(p) =>
      var (svc, begun) := RefreshBegin(s.svc);
      if begun.Rejected? then s.(svc := svc)
      else s.(svc := svc, procs := s.procs[p := Refreshing(begun.key, s.changes)])
    case EndRefresh(p, fetched) =>
      var (svc, ended) := RefreshEnd(s.svc, s.procs[p].requestKey, fetched);
      s.(svc := svc, procs := s.procs[p := Refreshed(ended)])
    case Mark(app) => s.(svc := MarkReady(s.svc, app))
    case Peek(app) => s.(svc := CurrentKey(s.svc, app).0)
    case ActivateAccount(next) => s.(svc := Activate(s.svc, next), changes := s.changes + 1)
    case InvalidateAccount => s.(svc := Invalidate(s.svc), changes := s.changes + 1)
    case SetConnection(c) => s.(svc := s.svc.(connection := c))
    case Tick(d) => s.(svc := s.svc.(now := s.svc.now + d))
  }

  ghost predicate Init(s: Sys) {
    && s.procs == map[] && s.changes == 0
    && s.svc.context.None? && s.svc.cancel.None? && s.svc.sessions == map[]
    && s.svc.cancelled == {} && s.svc.closed == {} && !s.svc.closedTwice
    && s.svc.epoch == 0 && s.svc.nextCtx == 0 && s.svc.nextChan == 0
  }

  /** A run takes steps one after the other; `states[i]` is the system before `steps[i]`. */
  ghost predicate IsRun(states: seq<Sys>, steps: seq<Step>) {
    && |states| == |steps| + 1
    && Init(states[0])
    && forall i :: 0 <= i < |steps| ==> Enabled(states[i], steps[i]) && states[i + 1] == Next(states[i], steps[i])
  }

  // ----- the invariant -----

  ghost predicate ContextOk(s: State) {
    && s.cancel == s.context
    && (s.context.Some? ==> s.context.value < s.nextCtx && s.context.value !in s.cancelled)
    && (forall c :: c in s.cancelled ==> c < s.nextCtx)
    && (s.context.None? ==> s.sessions == map[])
  }

  /** All keys carry the current epoch; a running check has an open channel of its own. */
  ghost predicate SessionsOk(s: State) {
    && !s.closedTwice
    && (forall c :: c in s.closed ==> c < s.nextChan)
    && (forall k :: k in s.sessions ==> k.epoch == s.epoch)
    && (forall k :: k in s.sessions && s.sessions[k].checking.Some? ==>
          s.sessions[k].checking.value < s.nextChan && s.sessions[k].checking.value !in s.closed)
  }

  ghost predicate Owns(proc: Proc, key: Key, chan: Chan) {
    proc.Checking? && proc.key == key && proc.chan == chan
  }

  ghost predicate HasOwner(s: Sys, key: Key, chan: Chan) {
    exists o :: o in s.procs && Owns(s.procs[o], key, chan)
  }

  /** An owner's entry is in the map exactly while its epoch is the current one. */
  ghost predicate OwnerOk(s: State, o: Proc)
    requires o.Checking?
  {
    && o.chan < s.nextChan && o.chan !in s.closed
    && o.key.epoch <= s.epoch && o.key.app == o.app
    && (o.key.epoch == s.epoch ==>
          s.context == Some(o.ctx) && o.key in s.sessions && s.sessions[o.key].checking == Some(o.chan))
  }

  ghost predicate OwnersOk(s: Sys) {
    && (forall p :: p in s.procs && s.procs[p].Checking? ==> OwnerOk(s.svc, s.procs[p]))
    && (forall p, q :: p in s.procs && q in s.procs && p != q && s.procs[p].Checking? && s.procs[q].Checking? ==>
          s.procs[p].key != s.procs[q].key && s.procs[p].chan != s.procs[q].chan)
    && (forall k :: k in s.svc.sessions && s.svc.sessions[k].checking.Some? ==>
          HasOwner(s, k, s.svc.sessions[k].checking.value))
  }

  /** A waiter will be released: closed channel, cancelled account, or an entry still being checked. */
  ghost predicate WaiterOk(s: State, w: Proc)
    requires w.Waiting?
  {
    w.key.app == w.app &&
    (|| w.chan in s.closed
     || w.ctx in s.cancelled
     || (s.context == Some(w.ctx) && w.key in s.sessions && s.sessions[w.key].checking == Some(w.chan)))
  }

  ghost predicate WaitersOk(s: Sys) {
    forall p :: p in s.procs && s.procs[p].Waiting? ==> WaiterOk(s.svc, s.procs[p])
  }

  /** A refresh request's epoch trails the current one by at least the account changes since. */
  ghost predicate RefreshOk(s: Sys, r: Proc)
    requires r.Refreshing?
  {
    && r.begun <= s.changes
    && (r.requestKey.app == CS2 ==>
          && r.requestKey.epoch + (s.changes - r.begun) <= s.svc.epoch
          && (r.begun == s.changes ==> r.requestKey.epoch == s.svc.epoch && s.svc.context.Some?))
    && (r.requestKey.app != CS2 ==> r.requestKey == NO_KEY)
  }

  ghost predicate RefreshesOk(s: Sys) {
    forall p :: p in s.procs && s.procs[p].Refreshing? ==> RefreshOk(s, s.procs[p])
  }

  ghost predicate Inv(s: Sys) {
    ContextOk(s.svc) && SessionsOk(s.svc) && OwnersOk(s) && WaitersOk(s) && RefreshesOk(s)
  }

  lemma InitInv(s: Sys)
    requires Init(s)
    ensures Inv(s)
  {}

  // ----- every step keeps the invariant -----

  /** No account change, and no check begun or ended. */
  ghost predicate Calm(s: State, t: State) {
    && t.epoch == s.epoch && t.context == s.context && t.cancel == s.cancel && t.cancelled == s.cancelled
    && t.closed == s.closed && t.closedTwice == s.closedTwice && t.nextCtx == s.nextCtx && t.nextChan == s.nextChan
    && (forall k :: k in s.sessions ==> k in t.sessions && t.sessions[k].checking == s.sessions[k].checking)
    && (forall k :: k in t.sessions && k !in s.sessions ==>
          k.epoch == s.epoch && s.context.Some? && t.sessions[k].checking.None?)
  }

  /** A new epoch with an empty map; the context of the old epoch is cancelled. */
  ghost predicate NewEpoch(s: State, t: State) {
    && s.epoch < t.epoch && t.sessions == map[] && t.cancel == t.context && s.nextCtx <= t.nextCtx
    && t.cancelled == s.cancelled + (if s.context.Some? then {s.context.value} else {})
    && (t.context.Some? ==> t.context.value == s.nextCtx < t.nextCtx)
    && t.closed == s.closed && t.closedTwice == s.closedTwice && t.nextChan == s.nextChan
  }

  lemma CalmOwners(s: Sys, t: Sys)
    requires Inv(s) && Calm(s.svc, t.svc) && t.procs == s.procs
    ensures OwnersOk(t)
  {}

  lemma CalmInv(s: Sys, t: Sys)
    requires Inv(s) && Calm(s.svc, t.svc) && t.procs == s.procs && t.changes == s.changes
    ensures Inv(t)
  {
    CalmOwners(s, t);
  }

  /** With `accountChange` false this is the first use of a context, when no refresh is in flight under it. */
  lemma NewEpochInv(s: Sys, t: Sys, accountChange: bool)
    requires Inv(s) && NewEpoch(s.svc, t.svc) && t.procs == s.procs
    requires accountChange ==> t.changes == s.changes + 1 && t.svc.epoch == s.svc.epoch + 1
    requires !accountChange ==> t.changes == s.changes && s.svc.context.None?
    ensures Inv(t)
  {}

  lemma PeekInv(s: Sys, app: nat)
    requires Inv(s)
    ensures Inv(Next(s, Peek(app)))
  {
    var t := Next(s, Peek(app));
    if s.svc.connection.state.Connected? && s.svc.context.None? {
      NewEpochInv(s, t, false);
    } else {
      CalmInv(s, t);
    }
  }

  /** A process that neither owned nor awaited a check, and does not begin to, changes nothing. */
  lemma ProcInv(s: Sys, p: Pid, proc: Proc)
    requires Inv(s)
    requires p in s.procs ==> !s.procs[p].Checking?
    requires !proc.Checking?
    requires proc.Waiting? ==> WaiterOk(s.svc, proc)
    requires proc.Refreshing? ==> RefreshOk(s, proc)
    ensures Inv(s.(procs := s.procs[p := proc]))
  {
    var t := s.(procs := s.procs[p := proc]);
    forall k | k in t.svc.sessions && t.svc.sessions[k].checking.Some?
      ensures HasOwner(t, k, t.svc.sessions[k].checking.value)
    {
      var o :| o in s.procs && Owns(s.procs[o], k, s.svc.sessions[k].checking.value);
      assert Owns(t.procs[o], k, t.svc.sessions[k].checking.value);
    }
  }

  /** `t` is `s` with a check of `key` begun by `p`; the key had none running. */
  ghost predicate Opens(s: Sys, p: Pid, app: nat, key: Key, t: Sys) {
    var chan := s.svc.nextChan;
    && s.svc.context.Some? && key.epoch == s.svc.epoch && key.app == app
    && (p in s.procs ==> !s.procs[p].Checking?)
    && (key in s.svc.sessions ==> s.svc.sessions[key].checking.None?)
    && t.svc == s.svc.(sessions := s.svc.sessions[key := Session(None, Some(chan), None)], nextChan := chan + 1)
    && t.procs == s.procs[p := Checking(app, key, s.svc.context.value, chan)]
    && t.changes == s.changes
  }

  lemma OpenOwners(s: Sys, p: Pid, app: nat, key: Key, t: Sys)
    requires Inv(s) && Opens(s, p, app, key, t)
    ensures OwnersOk(t)
  {
    forall k | k in t.svc.sessions && t.svc.sessions[k].checking.Some?
      ensures HasOwner(t, k, t.svc.sessions[k].checking.value)
    {
      if k == key {
        assert Owns(t.procs[p], k, s.svc.nextChan);
      } else {
        var o :| o in s.procs && Owns(s.procs[o], k, s.svc.sessions[k].checking.value);
        assert Owns(t.procs[o], k, t.svc.sessions[k].checking.value);
      }
    }
  }

  lemma OpenInv(s: Sys, p: Pid, app: nat, key: Key, t: Sys)
    requires Inv(s) && Opens(s, p, app, key, t)
    ensures Inv(t)
  {
    OpenOwners(s, p, app, key, t);
  }

  lemma EnterInv(s: Sys, p: Pid)
    requires Inv(s) && Enabled(s, Enter(p))
    ensures Inv(Next(s, Enter(p)))
  {
    var app := s.procs[p].app;
    var m := Next(s, Peek(app));
    PeekInv(s, app);
    var (svc, entered) := EnsureEnter(s.svc, app);
    match entered
    case Own(key, ctx, chan) => OpenInv(m, p, app, key, Next(s, Enter(p)));
    case Wait(key, ctx, chan) => ProcInv(m, p, Waiting(app, key, ctx, chan));
    case Return(e) => ProcInv(m, p, Returned(e));
  }

  /** `t` is `s` with the check of `p` ended: its entry, if still there, is closed. */
  ghost predicate Closes(s: Sys, p: Pid, session: Session, e: Option<Error>, t: Sys) {
    && p in s.procs && s.procs[p].Checking? && session.checking.None?
    && t.procs == s.procs[p := Returned(e)] && t.changes == s.changes
    && var o := s.procs[p];
       t.svc == (if o.key in s.svc.sessions && s.svc.sessions[o.key].checking == Some(o.chan)
                 then CloseChan(s.svc.(sessions := s.svc.sessions[o.key := session]), o.chan) else s.svc)
  }

  lemma CloseOwners(s: Sys, p: Pid, session: Session, e: Option<Error>, t: Sys)
    requires Inv(s) && Closes(s, p, session, e, t)
    ensures OwnersOk(t)
  {
    forall k | k in t.svc.sessions && t.svc.sessions[k].checking.Some?
      ensures HasOwner(t, k, t.svc.sessions[k].checking.value)
    {
      var o :| o in s.procs && Owns(s.procs[o], k, s.svc.sessions[k].checking.value);
      assert Owns(t.procs[o], k, t.svc.sessions[k].checking.value);
    }
  }

  lemma CloseInv(s: Sys, p: Pid, session: Session, e: Option<Error>, t: Sys)
    requires Inv(s) && Closes(s, p, session, e, t)
    ensures Inv(t)
  {
    CloseOwners(s, p, session, e, t);
  }

  lemma FinishInv(s: Sys, p: Pid, requestErr: Option<Error>)
    requires Inv(s) && Enabled(s, Finish(p, requestErr))
    ensures Inv(Next(s, Finish(p, requestErr)))
  {
    var o, t := s.procs[p], Next(s, Finish(p, requestErr));
    var m := Next(s, Peek(o.app));
    PeekInv(s, o.app);
    var session := if o.key in t.svc.sessions then t.svc.sessions[o.key] else Session(None, None, None);
    CloseInv(m, p, if session.checking.None? then session else Session(None, None, None), t.procs[p].error, t);
  }

  lemma MarkInv(s: Sys, app: nat)
    requires Inv(s)
    ensures Inv(Next(s, Mark(app)))
  {
    PeekInv(s, app);
    CalmInv(Next(s, Peek(app)), Next(s, Mark(app)));
  }

  lemma BeginRefreshInv(s: Sys, p: Pid)
    requires Inv(s) && Enabled(s, BeginRefresh(p))
    ensures Inv(Next(s, BeginRefresh(p)))
  {
    var t, m := Next(s, BeginRefresh(p)), Next(s, Peek(CS2));
    var n := t.(procs := s.procs);
    if s.svc.connection.state.NotConnected? {
      CalmInv(s, n);
    } else {
      PeekInv(s, CS2);
      CalmInv(m, n);
      ProcInv(n, p, t.procs[p]);
    }
  }

  lemma EndRefreshInv(s: Sys, p: Pid, fetched: Result<seq<nat>, Error>)
    requires Inv(s) && Enabled(s, EndRefresh(p, fetched))
    ensures Inv(Next(s, EndRefresh(p, fetched)))
  {
    var t, m := Next(s, EndRefresh(p, fetched)), Next(s, Peek(CS2));
    var n := t.(procs := s.procs);
    PeekInv(s, CS2);
    CalmInv(m, n);
    ProcInv(n, p, t.procs[p]);
  }

  lemma NextInv(s: Sys, step: Step)
    requires Inv(s) && Enabled(s, step)
    ensures Inv(Next(s, step))
  {
    match step
    case Call(p, app) => ProcInv(s, p, Entering(app));
    case Enter(p) => EnterInv(s, p);
    case CallerGone(p) => ProcInv(s, p, Returned(Some(CallerCancelled)));
    case AccountGone(p) => ProcInv(s, p, Returned(Some(SupersededByAccountChange)));
    case Wake(p) => ProcInv(s, p, Next(s, step).procs[p]);
    case Finish(p, requestErr) => FinishInv(s, p, requestErr);
    case BeginRefresh(p) => BeginRefreshInv(s, p);
    case EndRefresh(p, fetched) => EndRefreshInv(s, p, fetched);
    case Mark(app) => MarkInv(s, app);
    case Peek(app) => PeekInv(s, app);
    case ActivateAccount(_) => NewEpochInv(s, Next(s, step), true);
    case InvalidateAccount => NewEpochInv(s, Next(s, step), true);
    case SetConnection(_) => CalmInv(s, Next(s, step));
    case Tick(_) => CalmInv(s, Next(s, step));
  }

  lemma {:induction false} RunInv(states: seq<Sys>, steps: seq<Step>, i: nat)
    requires IsRun(states, steps) && i < |states|
    ensures Inv(states[i])
  {
    if i == 0 {
      InitInv(states[0]);
    } else {
      RunInv(states, steps, i - 1);
      NextInv(states[i - 1], steps[i - 1]);
    }
  }

  // ----- what holds over whole runs -----

  /**
    No wake-up is lost: whoever waits is released already, or is released by the end of a
    check that some live caller is still running for exactly the channel waited on.
   */
  lemma NoLostWakeUp(states: seq<Sys>, steps: seq<Step>, i: nat, p: Pid)
    requires IsRun(states, steps) && i < |states|
    requires p in states[i].procs && states[i].procs[p].Waiting?
    ensures var s := states[i];
      || Enabled(s, Wake(p))
      || Enabled(s, AccountGone(p))
      || exists o :: o in s.procs && Owns(s.procs[o], s.procs[p].key, s.procs[p].chan) &&
           forall e :: Enabled(s, Finish(o, e)) ==> Enabled(Next(s, Finish(o, e)), Wake(p))
  {
    RunInv(states, steps, i);
    var s := states[i];
    var w := s.procs[p];
    assert WaiterOk(s.svc, w);
    if w.chan !in s.svc.closed && w.ctx !in s.svc.cancelled {
      assert HasOwner(s, w.key, w.chan);
      var o :| o in s.procs && Owns(s.procs[o], w.key, w.chan);
      forall e | Enabled(s, Finish(o, e))
        ensures Enabled(Next(s, Finish(o, e)), Wake(p))
      {
        assert EnsureFinish(s.svc, s.procs[o].app, w.key, w.chan, e).0.closed == s.svc.closed + {w.chan};
      }
    }
  }

  /** One check per key at a time, no running check's channel closed already, only current keys in the map. */
  lemma SingleFlight(states: seq<Sys>, steps: seq<Step>, i: nat)
    requires IsRun(states, steps) && i < |states|
    ensures var s := states[i];
      && (forall p, q :: p in s.procs && q in s.procs && p != q && s.procs[p].Checking? && s.procs[q].Checking? ==>
            s.procs[p].key != s.procs[q].key && s.procs[p].chan != s.procs[q].chan)
      && (forall p :: p in s.procs && s.procs[p].Checking? ==> s.procs[p].chan !in s.svc.closed)
      && (forall k :: k in s.svc.sessions ==> k.epoch == s.svc.epoch)
      && (s.svc.context.None? ==> s.svc.sessions == map[])
      && !s.svc.closedTwice
  {
    RunInv(states, steps, i);
  }

  /** The owner of a check is told "ready" only while its key is still current and marked ready now. */
  lemma OwnerNilMeansReady(states: seq<Sys>, steps: seq<Step>, i: nat, p: Pid, requestErr: Option<Error>)
    requires IsRun(states, steps) && i < |steps| && steps[i] == Finish(p, requestErr)
    requires states[i + 1].procs[p] == Returned(None)
    ensures var o, t := states[i].procs[p], states[i + 1].svc;
      && requestErr.None? && SupportedApp(o.app)
      && CurrentKey(t, o.app).1 == Ok((o.key, o.ctx))
      && o.key in t.sessions && t.sessions[o.key] == Session(Some(t.now), None, None)
  {
    RunInv(states, steps, i);
    RunInv(states, steps, i + 1);
  }

  /** The key a caller works under: the current one as it enters, and from then on the same. */
  function CallerKey(s: Sys, p: Pid): Option<Key>
    requires p in s.procs
  {
    match s.procs[p]
    case Entering(app) =>
      var current := CurrentKey(s.svc, app).1;
      if current.Ok? then Some(current.value.0) else None
    case Waiting(_, key, _, _) => Some(key)
    case Checking(_, key, _, _) => Some(key)
    case _ => None
  }

  /** The caller's own key is marked ready in `t`: freshly if it just entered, and else by a check that went well. */
  ghost predicate KeyIsReady(s: Sys, p: Pid, t: State)
    requires p in s.procs
  {
    && CallerKey(s, p).Some?
    && var key := CallerKey(s, p).value;
       && key in t.sessions && key.app == s.procs[p].app && key.epoch == t.epoch && t.sessions[key].readyAt.Some?
       && if s.procs[p].Entering? then Fresh(t, t.sessions[key])
          else t.sessions[key].checking.None? && t.sessions[key].lastErr.None?
  }

  /**
    However a caller gets "ready", the entry of its own key is marked ready under the current epoch: a
    fresh one if it has just entered, and else one whose check has ended without an error.
   */
  lemma NilMeansReady(states: seq<Sys>, steps: seq<Step>, i: nat, p: Pid)
    requires IsRun(states, steps) && i < |steps|
    requires p in states[i].procs && !states[i].procs[p].Returned?
    requires states[i + 1].procs[p] == Returned(None)
    ensures KeyIsReady(states[i], p, states[i + 1].svc)
  {
    RunInv(states, steps, i);
    RunInv(states, steps, i + 1);
    NilNow(states[i], steps[i], p);
  }

  lemma NilNow(s: Sys, step: Step, p: Pid)
    requires Inv(s) && Enabled(s, step) && Inv(Next(s, step))
    requires p in s.procs && !s.procs[p].Returned? && Next(s, step).procs[p] == Returned(None)
    ensures KeyIsReady(s, p, Next(s, step).svc)
  {
    if s.procs[p].Waiting? {
      assert WaiterOk(s.svc, s.procs[p]);
    } else if s.procs[p].Checking? {
      assert OwnerOk(s.svc, s.procs[p]);
    }
  }

  // ----- inventory refreshes -----

  predicate AccountChange(step: Step) {
    step.ActivateAccount? || step.InvalidateAccount?
  }

  /** A refresh in flight keeps its request key, and `changes` counts the account changes meanwhile. */
  lemma {:induction false} RefreshStays(states: seq<Sys>, steps: seq<Step>, i: nat, j: nat, p: Pid)
    requires IsRun(states, steps) && i <= j < |states|
    requires p in states[i].procs && states[i].procs[p].Refreshing?
    requires forall k :: i <= k < j ==> !(steps[k].EndRefresh? && steps[k].pid == p)
    ensures p in states[j].procs && states[j].procs[p] == states[i].procs[p]
    ensures states[i].changes <= states[j].changes
    ensures states[j].changes == states[i].changes <==> forall k :: i <= k < j ==> !AccountChange(steps[k])
  {
    if i == j {
    } else {
      RefreshStays(states, steps, i, j - 1, p);
      assert Enabled(states[j - 1], steps[j - 1]);
    }
  }

  /**
    A refresh begun by step i and ended by step j stores its outcome exactly when the account was
    connected at both ends under the same identity and no activation or invalidation came between.
    Otherwise it leaves the inventory alone.  Only a stored conflict changes the connection's state.
   */
  lemma RefreshStoresIff(states: seq<Sys>, steps: seq<Step>, i: nat, j: nat, p: Pid, fetched: Result<seq<nat>, Error>)
    requires IsRun(states, steps) && i < j < |steps|
    requires steps[i] == BeginRefresh(p) && steps[j] == EndRefresh(p, fetched)
    requires !states[i].svc.connection.state.NotConnected?
    requires forall k :: i < k < j ==> !(steps[k].EndRefresh? && steps[k].pid == p)
    ensures var atBegin, atEnd := states[i].svc.connection, states[j].svc.connection;
      var stored :=
        && atBegin.state.Connected? && atEnd.state.Connected?
        && AccountID(atBegin) == AccountID(atEnd)
        && forall k :: i < k < j ==> !AccountChange(steps[k]);
      && states[j + 1].procs[p] ==
           Refreshed(if !stored then Superseded else if fetched.Ok? then StoredSnapshot else StoredError)
      && states[j + 1].svc.inventory ==
           (if !stored then states[j].svc.inventory
            else if fetched.Ok? then Inventory(Ready, fetched.value) else Inventory(Failed(fetched.error), []))
      && states[j + 1].svc.connection ==
           if stored && fetched.Err? && fetched.error.RequestFailed? && fetched.error.conflict
           then atEnd.(state := SessionConflict) else atEnd
  {
    RunInv(states, steps, j);
    RefreshStays(states, steps, i + 1, j, p);
    RefreshKey(states[i], p);
    assert RefreshOk(states[j], states[j].procs[p]);
  }

  lemma RefreshKey(s: Sys, p: Pid)
    requires Enabled(s, BeginRefresh(p)) && !s.svc.connection.state.NotConnected?
    ensures var t := Next(s, BeginRefresh(p));
      && t.procs[p].Refreshing? && t.changes == s.changes == t.procs[p].begun
      && t.procs[p].requestKey == (if s.svc.connection.state.Connected?
           then Key(AccountID(s.svc.connection), CS2, t.svc.epoch) else NO_KEY)
  {}

  /**
    The account advice shown on a session conflict is to retry the refresh, but a retry begun in
    conflict ends superseded whatever happens meanwhile: its request key is never a current key.
   */
  lemma ConflictRetryNeverStores(states: seq<Sys>, steps: seq<Step>, i: nat, j: nat, p: Pid,
                                 fetched: Result<seq<nat>, Error>)
    requires IsRun(states, steps) && i < j < |steps|
    requires steps[i] == BeginRefresh(p) && steps[j] == EndRefresh(p, fetched)
    requires states[i].svc.connection.state.SessionConflict?
    requires forall k :: i < k < j ==> !(steps[k].EndRefresh? && steps[k].pid == p)
    ensures states[j + 1].procs[p] == Refreshed(Superseded)
    ensures states[j + 1].svc.inventory == states[j].svc.inventory
    ensures states[j + 1].svc.connection == states[j].svc.connection
  {
    RefreshStoresIff(states, steps, i, j, p, fetched);
  }

  /** Such a run: a refresh ends in a conflict, and its retry fetches items but leaves the inventory loading. */
  lemma ConflictRetryRun(start: Sys, error: Error, items: seq<nat>)
    requires Init(start) && start.svc.connection.state.Connected?
    requires error.RequestFailed? && error.conflict
    ensures exists states: seq<Sys> ::
      && IsRun(states, ConflictRetrySteps(error, items)) && states[0] == start
      && states[2].svc.connection.state.SessionConflict? && states[3].procs[1] == Refreshing(NO_KEY, 0)
      && states[4].procs[1] == Refreshed(Superseded)
      && states[4].svc.connection.state.SessionConflict? && states[4].svc.inventory == Inventory(Loading, [])
  {
    var steps := ConflictRetrySteps(error, items);
    var s1 := Next(start, BeginRefresh(0));
    var s2 := Next(s1, EndRefresh(0, Err(error)));
    ConflictStored(start, error);
    var s3 := Next(s2, BeginRefresh(1));
    var s4 := Next(s3, EndRefresh(1, Ok(items)));
    var states := [start, s1, s2, s3, s4];
    assert IsRun(states, steps) by {
      assert forall i :: 0 <= i < 4 ==> Enabled(states[i], steps[i]);
    }
  }

  lemma ConflictStored(start: Sys, error: Error)
    requires Init(start) && start.svc.connection.state.Connected?
    requires error.RequestFailed? && error.conflict
    ensures var s := Next(Next(start, BeginRefresh(0)), EndRefresh(0, Err(error)));
      s.svc.connection.state.SessionConflict? && s.svc.inventory.items == [] && s.changes == 0 && 1 !in s.procs
  {}

  function ConflictRetrySteps(error: Error, items: seq<nat>): (steps: seq<Step>)
    ensures |steps| == 4
  {
    [BeginRefresh(0), EndRefresh(0, Err(error)), BeginRefresh(1), EndRefresh(1, Ok(items))]
  }
}
