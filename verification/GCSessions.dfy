/**
  The Game Coordinator session manager: callers of one account and app share a
  single readiness check, and an account change drops every check in flight.

  Each function below is one critical section of the service (everything between
  taking and releasing its mutex) as a function of the locked fields.  The class
  `Service` performs the same sections step by step on mutable fields and is proved
  equal to them; `GCSessionRuns` proves what holds over all interleavings.
 */
module GCSessions {
  import opened Prelude

  type Ctx = nat
  type Chan = nat

  const FRESHNESS: int := 30_000_000_000  // nanoseconds
  const CS2: nat := 730

  datatype ConnState = Connected | SessionConflict | NotConnected
  datatype Connection = Connection(state: ConnState, steamID: string, accountName: string)

  datatype Key = Key(account: string, app: nat, epoch: nat)
  const NO_KEY := Key("", 0, 0)

  datatype Error =
    | AccountNotConnected
    | SupersededByAccountChange
    | CallerCancelled
    | UnsupportedApp
    | RequestFailed(code: int, conflict: bool)

  /** `readyAt` is None for Go's zero time; `checking` is the channel of the running check. */
  datatype Session = Session(readyAt: Option<int>, checking: Option<Chan>, lastErr: Option<Error>)

  datatype Status = RequiresConnection | Loading | Ready | Failed(error: Error)
  datatype Inventory = Inventory(status: Status, items: seq<nat>)
  const EMPTY_INVENTORY := Inventory(RequiresConnection, [])

  /** The fields guarded by the mutex, with the contexts cancelled and channels closed so far. */
  datatype State = State(
    connection: Connection,
    epoch: nat,
    context: Option<Ctx>,
    cancel: Option<Ctx>,
    sessions: map<Key, Session>,
    inventory: Inventory,
    now: int,
    cancelled: set<Ctx>,
    closed: set<Chan>,
    nextCtx: Ctx,
    nextChan: Chan,
    closedTwice: bool)

  datatype Entered =
    | Return(error: Option<Error>)
    | Wait(key: Key, ctx: Ctx, chan: Chan)
    | Own(key: Key, ctx: Ctx, chan: Chan)

  datatype Woken = Retry | Done(error: Option<Error>)

  datatype RefreshBegun = Rejected | InFlight(key: Key)
  datatype RefreshEnded = Superseded | StoredError | StoredSnapshot

  function AccountID(c: Connection): string {
    if c.steamID != "" then c.steamID
    else if c.accountName != "" then c.accountName
    else "connected-account"
  }

  predicate Fresh(s: State, e: Session) {
    e.readyAt.Some? && s.now - e.readyAt.value < FRESHNESS
  }

  function CancelCurrent(s: State): State {
    if s.cancel.Some? then s.(cancelled := s.cancelled + {s.cancel.value}) else s
  }

  function NewContext(s: State): State {
    s.(context := Some(s.nextCtx), cancel := Some(s.nextCtx), nextCtx := s.nextCtx + 1)
  }

  function Activate(s: State, nextSteamID: string): State {
    var s1 := CancelCurrent(s);
    var s2 := NewContext(s1.(epoch := s1.epoch + 1)).(sessions := map[]);
    if s.connection.steamID != "" && s.connection.steamID != nextSteamID
    then s2.(inventory := EMPTY_INVENTORY) else s2
  }

  function Invalidate(s: State): State {
    CancelCurrent(s).(cancel := None, context := None, epoch := s.epoch + 1, sessions := map[])
  }

  /** The key under which a caller works now; creates the account context on first use. */
  function CurrentKey(s: State, app: nat): (r: (State, Result<(Key, Ctx), Error>)) {
    if !s.connection.state.Connected? then (s, Err(AccountNotConnected))
    else
      var s1 := if s.context.None? then NewContext(s.(epoch := s.epoch + 1)) else s;
      (s1, Ok((Key(AccountID(s1.connection), app, s1.epoch), s1.context.value)))
  }

  function EnsureEnter(s: State, app: nat): (State, Entered) {
    var (s1, current) := CurrentKey(s, app);
    if current.Err? then (s1, Return(Some(current.error)))
    else
      var (key, ctx) := current.value;
      if key in s1.sessions && Fresh(s1, s1.sessions[key]) then (s1, Return(None))
      else if key in s1.sessions && s1.sessions[key].checking.Some? then
        (s1, Wait(key, ctx, s1.sessions[key].checking.value))
      else
        var chan := s1.nextChan;
        (s1.(sessions := s1.sessions[key := Session(None, Some(chan), None)], nextChan := chan + 1),
         Own(key, ctx, chan))
  }

  /** What a waiter does once its channel is closed. */
  function EnsureWake(s: State, key: Key): Woken {
    if key in s.sessions && s.sessions[key].checking.None? && s.sessions[key].lastErr.Some? then
      Done(s.sessions[key].lastErr)
    else if key in s.sessions && s.sessions[key].checking.None? && s.sessions[key].readyAt.Some? then
      Done(None)
    else Retry
  }

  function CloseChan(s: State, chan: Chan): State {
    s.(closed := s.closed + {chan}, closedTwice := s.closedTwice || chan in s.closed)
  }

  function EnsureFinish(s: State, app: nat, key: Key, chan: Chan, requestErr: Option<Error>): (State, Option<Error>) {
    var (s1, current) := CurrentKey(s, app);
    var stillCurrent := current.Ok? && current.value.0 == key;
    var s2 :=
      if key in s1.sessions && s1.sessions[key].checking == Some(chan) then
        var readyAt := if requestErr.None? && stillCurrent then Some(s1.now) else s1.sessions[key].readyAt;
        CloseChan(s1.(sessions := s1.sessions[key := Session(readyAt, None, requestErr)]), chan)
      else s1;
    (s2, if stillCurrent then requestErr else Some(SupersededByAccountChange))
  }

  function MarkReady(s: State, app: nat): State {
    var (s1, current) := CurrentKey(s, app);
    if current.Err? then s1
    else
      var key := current.value.0;
      var checking := if key in s1.sessions then s1.sessions[key].checking else None;
      s1.(sessions := s1.sessions[key := Session(Some(s1.now), checking, None)])
  }

  function RefreshBegin(s: State): (State, RefreshBegun) {
    if s.connection.state.NotConnected? then
      (s.(inventory := s.inventory.(status := RequiresConnection)), Rejected)
    else
      var (s1, current) := CurrentKey(s.(inventory := s.inventory.(status := Loading)), CS2);
      (s1, InFlight(if current.Ok? then current.value.0 else NO_KEY))
  }

  function RefreshEnd(s: State, requestKey: Key, fetched: Result<seq<nat>, Error>): (State, RefreshEnded) {
    var (s1, current) := CurrentKey(s, CS2);
    if current.Err? || current.value.0 != requestKey then (s1, Superseded)
    else match fetched
      case Err(e) =>
        var s2 := s1.(inventory := Inventory(Failed(e), []));
        (if e.RequestFailed? && e.conflict
         then s2.(connection := s2.connection.(state := SessionConflict)) else s2, StoredError)
      case Ok(items) =>
        var s2 := s1.(inventory := Inventory(Ready, items));
        (if s2.connection.state.SessionConflict?
         then s2.(connection := s2.connection.(state := Connected)) else s2, StoredSnapshot)
  }

  /** The service object: the same critical sections as field updates in program order. */
  class Service {
    var connection: Connection
    var gcSessionEpoch: nat
    var gcSessionContext: Option<Ctx>
    var gcSessionCancel: Option<Ctx>
    var gcSessions: map<Key, Session>
    var inventory: Inventory
    var clock: int
    var cancelled: set<Ctx>
    var closed: set<Chan>
    var nextCtx: Ctx
    var nextChan: Chan
    var closedTwice: bool

    ghost function View(): State
      reads this
    {
      State(connection, gcSessionEpoch, gcSessionContext, gcSessionCancel, gcSessions, inventory, clock,
            cancelled, closed, nextCtx, nextChan, closedTwice)
    }

    method CancelContext()
      modifies this
      ensures View() == CancelCurrent(old(View()))
    {
      if gcSessionCancel.Some? {
        cancelled := cancelled + {gcSessionCancel.value};
      }
    }

    method WithCancel()
      modifies this
      ensures View() == NewContext(old(View()))
    {
      gcSessionContext, gcSessionCancel := Some(nextCtx), Some(nextCtx);
      nextCtx := nextCtx + 1;
    }

    method ActivateAccountSession(nextSteamID: string)
      modifies this
      ensures View() == Activate(old(View()), nextSteamID)
    {
      CancelContext();
      gcSessionEpoch := gcSessionEpoch + 1;
      WithCancel();
      gcSessions := map[];
      if connection.steamID != "" && connection.steamID != nextSteamID {
        inventory := EMPTY_INVENTORY;
      }
    }

    method InvalidateAccountSession()
      modifies this
      ensures View() == Invalidate(old(View()))
    {
      CancelContext();
      gcSessionCancel := None;
      gcSessionContext := None;
      gcSessionEpoch := gcSessionEpoch + 1;
      gcSessions := map[];
    }

    method CurrentGCSessionKey(app: nat) returns (r: Result<(Key, Ctx), Error>)
      modifies this
      ensures (View(), r) == CurrentKey(old(View()), app)
    {
      if !connection.state.Connected? {
        return Err(AccountNotConnected);
      }
      var accountID := connection.steamID;
      if accountID == "" {
        accountID := connection.accountName;
      }
      if accountID == "" {
        accountID := "connected-account";
      }
      if gcSessionContext.None? {
        gcSessionEpoch := gcSessionEpoch + 1;
        WithCancel();
      }
      return Ok((Key(accountID, app, gcSessionEpoch), gcSessionContext.value));
    }

    method EnterEnsure(app: nat) returns (r: Entered)
      modifies this
      ensures (View(), r) == EnsureEnter(old(View()), app)
    {
      var current := CurrentGCSessionKey(app);
      if current.Err? {
        return Return(Some(current.error));
      }
      var key, ctx := current.value.0, current.value.1;
      if key in gcSessions {
        var state := gcSessions[key];
        if state.readyAt.Some? && clock - state.readyAt.value < FRESHNESS {
          return Return(None);
        }
        if state.checking.Some? {
          return Wait(key, ctx, state.checking.value);
        }
      }
      var checking := nextChan;
      nextChan := nextChan + 1;
      gcSessions := gcSessions[key := Session(None, Some(checking), None)];
      return Own(key, ctx, checking);
    }

    method WakeEnsure(key: Key) returns (r: Woken)
      ensures r == EnsureWake(View(), key)
    {
      if key in gcSessions && gcSessions[key].checking.None? {
        var completed := gcSessions[key];
        if completed.lastErr.Some? {
          return Done(completed.lastErr);
        }
        if completed.readyAt.Some? {
          return Done(None);
        }
      }
      return Retry;
    }

    method FinishEnsure(app: nat, key: Key, checking: Chan, requestErr: Option<Error>) returns (r: Option<Error>)
      modifies this
      ensures (View(), r) == EnsureFinish(old(View()), app, key, checking, requestErr)
    {
      var current := CurrentGCSessionKey(app);
      if key in gcSessions && gcSessions[key].checking == Some(checking) {
        var state := gcSessions[key].(checking := None, lastErr := requestErr);
        if requestErr.None? && current.Ok? && current.value.0 == key {
          state := state.(readyAt := Some(clock));
        }
        gcSessions := gcSessions[key := state];
        closedTwice := closedTwice || checking in closed;
        closed := closed + {checking};
      }
      if current.Err? || current.value.0 != key {
        return Some(SupersededByAccountChange);
      }
      return requestErr;
    }

    method MarkGCSessionReady(app: nat)
      modifies this
      ensures View() == MarkReady(old(View()), app)
    {
      var current := CurrentGCSessionKey(app);
      if current.Err? {
        return;
      }
      var key := current.value.0;
      var state := Session(None, None, None);
      if key in gcSessions {
        state := gcSessions[key];
      }
      gcSessions := gcSessions[key := state.(readyAt := Some(clock), lastErr := None)];
    }

    method BeginRefreshInventory() returns (r: RefreshBegun)
      modifies this
      ensures (View(), r) == RefreshBegin(old(View()))
    {
      if connection.state.NotConnected? {
        inventory := inventory.(status := RequiresConnection);
        return Rejected;
      }
      inventory := inventory.(status := Loading);
      var current := CurrentGCSessionKey(CS2);
      var requestKey := NO_KEY;
      if current.Ok? {
        requestKey := current.value.0;
      }
      return InFlight(requestKey);
    }

    method EndRefreshInventory(requestKey: Key, fetched: Result<seq<nat>, Error>) returns (r: RefreshEnded)
      modifies this
      ensures (View(), r) == RefreshEnd(old(View()), requestKey, fetched)
    {
      var current := CurrentGCSessionKey(CS2);
      if current.Err? || current.value.0 != requestKey {
        return Superseded;
      }
      if fetched.Err? {
        inventory := Inventory(Failed(fetched.error), []);
        if fetched.error.RequestFailed? && fetched.error.conflict {
          connection := connection.(state := SessionConflict);
        }
        return StoredError;
      }
      inventory := Inventory(Ready, fetched.value);
      connection := if connection.state.SessionConflict? then connection.(state := Connected) else connection;
      return StoredSnapshot;
    }
  }
}
