/**
  What a caller of the session check is told, over every interleaving: as it enters, as the owner of a
  check that ends, and as a waiter that wakes up.
 */
module GCSessionAnswers {
  import opened Prelude
  import opened GCSessions
  import opened GCSessionRuns

  /** The name under which a connection's sessions are kept: its Steam id, or account name, or a placeholder. */
  predicate Named(c: Connection, name: string) {
    || (c.steamID != "" && name == c.steamID)
    || (c.steamID == "" && c.accountName != "" && name == c.accountName)
    || (c.steamID == "" && c.accountName == "" && name == "connected-account")
  }

  ghost predicate SameAccount(a: Connection, b: Connection) {
    exists name :: Named(a, name) && Named(b, name)
  }

  lemma NamedIs(c: Connection, name: string)
    ensures Named(c, name) <==> name == AccountID(c)
  {}

  lemma SameAccountIff(a: Connection, b: Connection)
    ensures SameAccount(a, b) <==> AccountID(a) == AccountID(b)
  {
    NamedIs(a, AccountID(a));
    if SameAccount(a, b) {
      var name :| Named(a, name) && Named(b, name);
      NamedIs(a, name);
      NamedIs(b, name);
    } else {
      NamedIs(b, AccountID(a));
    }
  }

  // ----- entering -----

  /** The key of an app's sessions as they are now, if the account has a context. */
  ghost predicate IsCurrent(s: State, key: Key, app: nat) {
    s.connection.state.Connected? && s.context.Some? && Named(s.connection, key.account) && key.app == app &&
    key.epoch == s.epoch
  }

  /** The check of this key has ended and left it ready, or it was marked, less than 30 seconds ago. */
  predicate ReadyRecently(s: State, key: Key) {
    key in s.sessions && s.sessions[key].readyAt.Some? && s.now - s.sessions[key].readyAt.value < 30_000_000_000
  }

  /**
    A caller that enters is refused exactly if the account is not connected, told "ready" exactly if the
    current key was left ready less than 30 seconds ago, and else waits for the key's check if one is
    running, and owns a new one if not.
   */
  lemma EnterIs(states: seq<Sys>, steps: seq<Step>, i: nat, p: Pid)
    requires IsRun(states, steps) && i < |steps| && steps[i] == Enter(p)
    ensures var s, t, app := states[i].svc, states[i + 1].svc, states[i].procs[p].app;
      var proc := states[i + 1].procs[p];
      if !s.connection.state.Connected? then proc == Returned(Some(AccountNotConnected)) && t == s
      else
        && t.connection == s.connection && t.context.Some? && (s.context.Some? ==> t.context == s.context)
        && exists key ::
             && IsCurrent(t, key, app)
             && if ReadyRecently(s, key) then proc == Returned(None) && t.sessions == s.sessions
                else if key in s.sessions && s.sessions[key].checking.Some? then
                  && proc == Waiting(app, key, t.context.value, s.sessions[key].checking.value)
                  && t.sessions == s.sessions
                else
                  && proc == Checking(app, key, t.context.value, s.nextChan)
                  && t.sessions == s.sessions[key := Session(None, Some(s.nextChan), None)]
  {
    RunInv(states, steps, i);
    var s, app := states[i].svc, states[i].procs[p].app;
    if s.connection.state.Connected? {
      var key := CurrentKey(s, app).1.value.0;
      NamedIs(s.connection, key.account);
      assert IsCurrent(states[i + 1].svc, key, app);
    }
  }

  // ----- the owner of a check -----

  ghost predicate NoAccountChange(steps: seq<Step>, i: nat, j: nat)
    requires j <= |steps|
  {
    forall k :: i <= k < j ==> !AccountChange(steps[k])
  }

  lemma NoChangeNow(steps: seq<Step>, i: nat, j: nat)
    requires i < j <= |steps|
    ensures NoAccountChange(steps, i, j) <==> NoAccountChange(steps, i, j - 1) && !AccountChange(steps[j - 1])
  {}

  /** The epoch stands still exactly while the account does not change, once it has a context. */
  lemma {:induction false} EpochStays(states: seq<Sys>, steps: seq<Step>, i: nat, j: nat)
    requires IsRun(states, steps) && i <= j < |states| && states[i].svc.context.Some?
    ensures states[i].svc.epoch <= states[j].svc.epoch
    ensures states[j].svc.epoch == states[i].svc.epoch <==> NoAccountChange(steps, i, j)
    ensures states[j].svc.epoch == states[i].svc.epoch ==> states[j].svc.context == states[i].svc.context
    decreases j
  {
    if i == j {
    } else {
      EpochStays(states, steps, i, j - 1);
      NoChangeNow(steps, i, j);
      RunStep(states, steps, j - 1);
      EpochStep(states[j - 1], steps[j - 1]);
    }
  }

  lemma RunStep(states: seq<Sys>, steps: seq<Step>, j: nat)
    requires IsRun(states, steps) && j < |steps|
    ensures Enabled(states[j], steps[j]) && states[j + 1] == Next(states[j], steps[j])
  {}

  lemma EpochStep(s: Sys, step: Step)
    requires Enabled(s, step)
    ensures var t := Next(s, step).svc;
      && s.svc.epoch <= t.epoch
      && (AccountChange(step) ==> s.svc.epoch < t.epoch)
      && (!AccountChange(step) && s.svc.context.Some? ==> t.epoch == s.svc.epoch && t.context == s.svc.context)
  {}

  lemma {:induction false} OwnerStays(states: seq<Sys>, steps: seq<Step>, i: nat, j: nat, p: Pid)
    requires IsRun(states, steps) && i <= j < |states| && p in states[i].procs && states[i].procs[p].Checking?
    requires forall k :: i <= k < j ==> !(steps[k].Finish? && steps[k].pid == p)
    ensures p in states[j].procs && states[j].procs[p] == states[i].procs[p]
    decreases j
  {
    if i == j {
    } else {
      OwnerStays(states, steps, i, j - 1, p);
      assert Enabled(states[j - 1], steps[j - 1]);
    }
  }

  lemma CurrentNow(s: State, key: Key, app: nat)
    ensures var current := CurrentKey(s, app).1;
      && (s.context.Some? ==> (current.Ok? && current.value.0 == key <==> IsCurrent(s, key, app)))
      && (s.context.None? && key.epoch <= s.epoch ==> !(current.Ok? && current.value.0 == key))
  {
    NamedIs(s.connection, key.account);
  }

  lemma OwnerKey(states: seq<Sys>, steps: seq<Step>, i: nat, p: Pid)
    requires IsRun(states, steps) && i < |steps| && steps[i] == Enter(p) && states[i + 1].procs[p].Checking?
    ensures var o, t := states[i + 1].procs[p], states[i + 1].svc;
      Named(states[i].svc.connection, o.key.account) && o.key.app == o.app && o.key.epoch == t.epoch && t.context.Some?
  {
    EnterIs(states, steps, i, p);
  }

  lemma FinishAnswer(s: Sys, p: Pid, e: Option<Error>)
    requires Inv(s) && Enabled(s, Finish(p, e))
    ensures var o := s.procs[p];
      Next(s, Finish(p, e)).procs[p] ==
      Returned(if s.svc.context.Some? && IsCurrent(s.svc, o.key, o.app) then e else Some(SupersededByAccountChange))
  {
    var o := s.procs[p];
    assert OwnerOk(s.svc, o);
    CurrentNow(s.svc, o.key, o.app);
  }

  /**
    The owner of a check gets its request's outcome, an error or nil, exactly if at the end the account is
    connected under the name it had at the beginning and was neither activated nor invalidated in
    between; otherwise it is told that an account change superseded it.
   */
  lemma OwnerIsTold(states: seq<Sys>, steps: seq<Step>, i: nat, j: nat, p: Pid, e: Option<Error>)
    requires IsRun(states, steps) && i < j < |steps|
    requires steps[i] == Enter(p) && states[i + 1].procs[p].Checking? && steps[j] == Finish(p, e)
    requires forall k :: i < k < j ==> !(steps[k].Finish? && steps[k].pid == p)
    ensures var atStart, atEnd := states[i].svc.connection, states[j].svc.connection;
      var same := atEnd.state.Connected? && SameAccount(atStart, atEnd) && NoAccountChange(steps, i + 1, j);
      states[j + 1].procs[p] == Returned(if same then e else Some(SupersededByAccountChange))
  {
    var o := states[i + 1].procs[p];
    OwnerKey(states, steps, i, p);
    OwnerStays(states, steps, i + 1, j, p);
    EpochStays(states, steps, i + 1, j);
    RunInv(states, steps, j);
    FinishAnswer(states[j], p, e);
    NamedIs(states[i].svc.connection, o.key.account);
    NamedIs(states[j].svc.connection, o.key.account);
    SameAccountIff(states[i].svc.connection, states[j].svc.connection);
  }

  // ----- waiters -----

  /** The steps that may change the entry of a key, other than the end of its check. */
  predicate Touches(step: Step, after: Sys, key: Key) {
    || AccountChange(step)
    || step == Mark(key.app)
    || (step.Enter? && step.pid in after.procs && after.procs[step.pid].Checking? &&
        after.procs[step.pid].key == key)
  }

  lemma EntryStep(s: Sys, step: Step, key: Key)
    requires Inv(s) && Enabled(s, step) && key in s.svc.sessions && s.svc.sessions[key].checking.None?
    requires !Touches(step, Next(s, step), key)
    ensures var t := Next(s, step).svc; key in t.sessions && t.sessions[key] == s.svc.sessions[key]
  {
    if step.Finish? {
      assert OwnerOk(s.svc, s.procs[step.pid]);
    }
  }

  predicate TouchedBy(states: seq<Sys>, steps: seq<Step>, k: nat, key: Key)
    requires |states| == |steps| + 1 && k < |steps|
  {
    Touches(steps[k], states[k + 1], key)
  }

  ghost predicate Untouched(states: seq<Sys>, steps: seq<Step>, i: nat, j: nat, key: Key)
    requires |states| == |steps| + 1 && j <= |steps|
  {
    forall k :: i <= k < j ==> !TouchedBy(states, steps, k, key)
  }

  lemma UntouchedNow(states: seq<Sys>, steps: seq<Step>, i: nat, j: nat, key: Key)
    requires |states| == |steps| + 1 && i < j <= |steps|
    ensures Untouched(states, steps, i, j, key) <==>
            Untouched(states, steps, i, j - 1, key) && !TouchedBy(states, steps, j - 1, key)
  {}

  lemma EntryRunStep(states: seq<Sys>, steps: seq<Step>, j: nat, key: Key)
    requires IsRun(states, steps) && j < |steps| && !TouchedBy(states, steps, j, key)
    requires key in states[j].svc.sessions && states[j].svc.sessions[key].checking.None?
    ensures var t := states[j + 1].svc; key in t.sessions && t.sessions[key] == states[j].svc.sessions[key]
  {
    RunInv(states, steps, j);
    RunStep(states, steps, j);
    EntryStep(states[j], steps[j], key);
  }

  lemma {:induction false} EntryStands(states: seq<Sys>, steps: seq<Step>, i: nat, j: nat, key: Key)
    requires IsRun(states, steps) && i <= j < |states|
    requires key in states[i].svc.sessions && states[i].svc.sessions[key].checking.None?
    requires Untouched(states, steps, i, j, key)
    ensures key in states[j].svc.sessions && states[j].svc.sessions[key] == states[i].svc.sessions[key]
    decreases j
  {
    if i == j {
    } else {
      UntouchedNow(states, steps, i, j, key);
      EntryStands(states, steps, i, j - 1, key);
      EntryRunStep(states, steps, j - 1, key);
    }
  }

  /** The entry of an ended check: its error, and whether it was left ready. */
  lemma EndedEntry(s: Sys, o: Pid, e: Option<Error>)
    requires Inv(s) && Enabled(s, Finish(o, e)) && s.procs[o].key.epoch == s.svc.epoch
    ensures var key, t := s.procs[o].key, Next(s, Finish(o, e)).svc;
      && key in s.svc.sessions && key in t.sessions
      && t.sessions[key] == Session(
           if e.None? && IsCurrent(s.svc, key, key.app) then Some(s.svc.now) else s.svc.sessions[key].readyAt, None, e)
  {
    var w := s.procs[o];
    assert OwnerOk(s.svc, w);
    CurrentNow(s.svc, w.key, w.app);
  }

  // ----- every waiter that wakes up was waiting for a check that ended -----

  /** Whoever waits for a channel and whoever owns it work under the same key. */
  ghost predicate Paired(s: Sys) {
    && (forall p <- s.procs :: s.procs[p].Waiting? ==> s.procs[p].chan < s.svc.nextChan)
    && (forall p, o | p in s.procs && o in s.procs && s.procs[p].Waiting? && s.procs[o].Checking? ::
          s.procs[p].chan == s.procs[o].chan ==> s.procs[p].key == s.procs[o].key)
  }

  lemma EnterPaired(s: Sys, p: Pid)
    requires Inv(s) && Paired(s) && Enabled(s, Enter(p))
    ensures Paired(Next(s, Enter(p)))
  {
    var t := Next(s, Enter(p));
    if t.procs[p].Waiting? {
      var w := t.procs[p];
      assert HasOwner(s, w.key, w.chan);
      var o :| o in s.procs && Owns(s.procs[o], w.key, w.chan);
      assert OwnerOk(s.svc, s.procs[o]);
    }
  }

  /** Only entering makes a waiter, an owner, or a channel. */
  lemma OthersStay(s: Sys, step: Step)
    requires Enabled(s, step) && !step.Enter?
    ensures var t := Next(s, step);
      && t.svc.nextChan == s.svc.nextChan
      && forall p <- t.procs :: t.procs[p].Waiting? || t.procs[p].Checking? ==> p in s.procs && s.procs[p] == t.procs[p]
  {}

  lemma StepPaired(s: Sys, step: Step)
    requires Inv(s) && Paired(s) && Enabled(s, step)
    ensures Paired(Next(s, step))
  {
    if step.Enter? {
      EnterPaired(s, step.pid);
    } else {
      OthersStay(s, step);
    }
  }

  lemma {:induction false} RunPaired(states: seq<Sys>, steps: seq<Step>, j: nat)
    requires IsRun(states, steps) && j < |states|
    ensures Paired(states[j])
  {
    if j == 0 {
    } else {
      RunPaired(states, steps, j - 1);
      RunInv(states, steps, j - 1);
      RunStep(states, steps, j - 1);
      StepPaired(states[j - 1], steps[j - 1]);
    }
  }

  /** A step that ends the check that `w` waits for, while its entry is in the map. */
  predicate Ends(s: Sys, step: Step, w: Proc)
    requires Enabled(s, step) && w.Waiting?
  {
    step.Finish? && s.procs[step.pid].key == w.key && s.procs[step.pid].chan == w.chan && w.key.epoch == s.svc.epoch
  }

  lemma ReleaseStep(s: Sys, step: Step, p: Pid)
    requires Inv(s) && Paired(s) && Enabled(s, step)
    requires var t := Next(s, step); p in t.procs && t.procs[p].Waiting? && t.procs[p].chan in t.svc.closed
    ensures p in s.procs && s.procs[p] == Next(s, step).procs[p]
    ensures s.procs[p].chan in s.svc.closed || Ends(s, step, s.procs[p])
  {
    var t := Next(s, step);
    if step.Finish? {
      assert OwnerOk(s.svc, s.procs[step.pid]);
    }
  }

  /** A waiter whose channel is closed has waited since before the check of its key ended. */
  lemma {:induction false} Released(states: seq<Sys>, steps: seq<Step>, j: nat, p: Pid) returns (i: nat)
    requires IsRun(states, steps) && j < |states| && p in states[j].procs && states[j].procs[p].Waiting?
    requires states[j].procs[p].chan in states[j].svc.closed
    ensures i < j && Ends(states[i], steps[i], states[j].procs[p])
  {
    if j > 0 {
      RunInv(states, steps, j - 1);
      RunPaired(states, steps, j - 1);
      RunStep(states, steps, j - 1);
      ReleaseStep(states[j - 1], steps[j - 1], p);
      if Ends(states[j - 1], steps[j - 1], states[j].procs[p]) {
        i := j - 1;
      } else {
        i := Released(states, steps, j - 1, p);
      }
    } else {
      assert false;
    }
  }

  lemma WokenAfter(states: seq<Sys>, steps: seq<Step>, i: nat, j: nat, p: Pid)
    requires IsRun(states, steps) && i < j < |steps| && steps[j] == Wake(p)
    requires Enabled(states[i], steps[i]) && Enabled(states[j], steps[j])
    requires Ends(states[i], steps[i], states[j].procs[p])
    requires Untouched(states, steps, i + 1, j, states[j].procs[p].key)
    ensures var s, w, e := states[i].svc, states[j].procs[p], steps[i].requestErr;
      && w.key in s.sessions
      && states[j + 1].procs[p] ==
         if e.Some? then Returned(e)
         else if IsCurrent(s, w.key, w.key.app) || s.sessions[w.key].readyAt.Some? then Returned(None)
         else Entering(w.app)
  {
    RunInv(states, steps, i);
    RunStep(states, steps, i);
    RunStep(states, steps, j);
    EndedEntry(states[i], steps[i].pid, steps[i].requestErr);
    EntryStands(states, steps, i + 1, j, states[j].procs[p].key);
  }

  /**
    Whoever wakes up waited for a check of its key that has ended.  If nothing has touched the key's
    entry since, it gets exactly that check's error, or nil if the check left the key ready: it ended
    without an error under the current key, or the key was marked ready while it ran.  If neither, it
    goes round again.
   */
  lemma WaiterIsTold(states: seq<Sys>, steps: seq<Step>, j: nat, p: Pid) returns (i: nat)
    requires IsRun(states, steps) && j < |steps| && steps[j] == Wake(p)
    ensures i < j && Ends(states[i], steps[i], states[j].procs[p])
    ensures var s, w, e := states[i].svc, states[j].procs[p], steps[i].requestErr;
      Untouched(states, steps, i + 1, j, w.key) ==>
        && w.key in s.sessions
        && states[j + 1].procs[p] ==
           if e.Some? then Returned(e)
           else if IsCurrent(s, w.key, w.key.app) || s.sessions[w.key].readyAt.Some? then Returned(None)
           else Entering(w.app)
  {
    RunStep(states, steps, j);
    i := Released(states, steps, j, p);
    if Untouched(states, steps, i + 1, j, states[j].procs[p].key) {
      WokenAfter(states, steps, i, j, p);
    }
  }

  // ----- what changes the account, and what marks it ready -----

  /**
    An account change cancels the account's context, takes the next epoch and forgets every session.  An
    activation opens a new context, and resets the inventory exactly if it replaces another Steam id.
   */
  lemma AccountChangeIs(states: seq<Sys>, steps: seq<Step>, i: nat)
    requires IsRun(states, steps) && i < |steps| && AccountChange(steps[i])
    ensures var s, t := states[i].svc, states[i + 1].svc;
      && t.sessions == map[] && t.epoch == s.epoch + 1 && t.connection == s.connection && t.closed == s.closed
      && t.cancelled == s.cancelled + (if s.context.Some? then {s.context.value} else {})
      && if steps[i].InvalidateAccount? then t.context.None? && t.inventory == s.inventory
         else
           && t.context.Some? && t.context.value !in t.cancelled
           && t.inventory == if s.connection.steamID in {"", steps[i].nextSteamID} then s.inventory
                             else Inventory(RequiresConnection, [])
  {
    RunInv(states, steps, i);
    RunInv(states, steps, i + 1);
    RunStep(states, steps, i);
  }

  /** Marking an app ready leaves its current key ready as of now, without an error, and a running check running. */
  lemma MarkIs(states: seq<Sys>, steps: seq<Step>, i: nat, app: nat)
    requires IsRun(states, steps) && i < |steps| && steps[i] == Mark(app)
    ensures var s, t := states[i].svc, states[i + 1].svc;
      if !s.connection.state.Connected? then t == s
      else exists key ::
        && IsCurrent(t, key, app)
        && t.sessions == s.sessions[key := Session(
             Some(s.now), if key in s.sessions then s.sessions[key].checking else None, None)]
  {
    RunInv(states, steps, i);
    RunStep(states, steps, i);
    var s := states[i].svc;
    if s.connection.state.Connected? {
      var key := CurrentKey(s, app).1.value.0;
      NamedIs(s.connection, key.account);
      assert IsCurrent(states[i + 1].svc, key, app);
    }
  }

  /** A refresh of the inventory is refused without an account; else it begins, and the old items stay meanwhile. */
  lemma BeginRefreshIs(s: Sys, p: Pid)
    requires Enabled(s, BeginRefresh(p))
    ensures var t := Next(s, BeginRefresh(p));
      if s.svc.connection.state.NotConnected? then
        t == s.(svc := s.svc.(inventory := Inventory(RequiresConnection, s.svc.inventory.items)))
      else
        && p in t.procs && t.procs[p].Refreshing? && t.svc.sessions == s.svc.sessions
        && t.svc.inventory == Inventory(Loading, s.svc.inventory.items)
        && var key := t.procs[p].requestKey;
           if s.svc.connection.state.Connected?
           then Named(s.svc.connection, key.account) && key.app == 730 && key.epoch == t.svc.epoch
           else key == Key("", 0, 0)
  {}
}
