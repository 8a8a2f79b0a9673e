/** Every interleaving of game refreshes, settings changes, account changes and probes. */
module GameRefreshRuns {
  import opened Prelude
  import opened Strings
  import opened GameRefreshes

  type Pid = nat

  datatype Proc = Running(key: string, generation: nat, token: Token) | Ended(stored: bool)
  datatype Sys = Sys(svc: State, procs: map<Pid, Proc>)

  datatype Step =
    | StartGame(pid: Pid, game: Game)
    | StartService(pid: Pid, app: nat)
    | Finish(pid: Pid, outcome: Option<seq<nat>>)
    | SetFlags(flags: Flags)
    | Activate(nextSteamID: string)
    | Disconnect
    | SetConnection(connected: bool, steamID: string)
    | Probe(account: string, app: nat, items: seq<nat>)

  predicate Enabled(s: Sys, step: Step) {
    match step
    case StartGame(p, _) => p !in s.procs
    case StartService(p, _) => p !in s.procs
    case Finish(p, _) => p in s.procs && s.procs[p].Running?
    case _ => true
  }

  function Started(s: Sys, p: Pid, begun: (State, Begun)): Sys {
    if begun.1.InFlight?
    then Sys(begun.0, s.procs[p := Running(begun.1.key, begun.1.generation, begun.1.token)])
    else s.(svc := begun.0)
  }

  function Next(s: Sys, step: Step): Sys
    requires Enabled(s, step)
  {
    match step
    case StartGame(p, game) => Started(s, p, BeginGame(s.svc, game))
    case StartService(p, app) => Started(s, p, BeginService(s.svc, app))
    case Finish(p, outcome) =>
      var r := s.procs[p];
      var (svc, stored) := End(s.svc, r.key, r.generation, r.token, outcome);
      Sys(svc, s.procs[p := Ended(stored)])
    case SetFlags(f) => s.(svc := UpdateFlags(s.svc, f))
    case Activate(next) => s.(svc := ChangeAccount(s.svc, next))
    case Disconnect => s.(svc := ClearAll(s.svc).(connected := false, steamID := ""))
    case SetConnection(c, id) => s.(svc := s.svc.(connected := c, steamID := id))
    case Probe(account, app, items) => s.(svc := StoreProbe(s.svc, account, app, items))
  }

  ghost predicate Init(s: Sys) {
    && s.procs == map[] && s.svc.cancels == map[] && s.svc.counts == map[] && s.svc.snapshots == map[]
    && s.svc.cancelled == {} && s.svc.nextToken == 0
  }

  ghost predicate IsRun(states: seq<Sys>, steps: seq<Step>) {
    && |states| == |steps| + 1
    && Init(states[0])
    && forall i :: 0 <= i < |steps| ==> Enabled(states[i], steps[i]) && states[i + 1] == Next(states[i], steps[i])
  }

  // ----- the invariant -----

  /** The contexts that can still be cancelled are distinct and not cancelled yet. */
  ghost predicate CancelsOk(s: State) {
    && (forall k :: k in s.cancels ==> s.cancels[k] < s.nextToken && s.cancels[k] !in s.cancelled)
    && (forall k, k' :: k in s.cancels && k' in s.cancels && k != k' ==> s.cancels[k] != s.cancels[k'])
    && (forall t :: t in s.cancelled ==> t < s.nextToken)
  }

  /** A running refresh either holds the last generation of its key, or its context is cancelled. */
  ghost predicate RunningOk(s: State, r: Proc)
    requires r.Running?
  {
    && r.generation <= Count(s, r.key)
    && if r.generation == Count(s, r.key)
       then r.key in s.cancels && s.cancels[r.key] == r.token
       else r.token in s.cancelled
  }

  ghost predicate ProcsOk(s: Sys) {
    && (forall p :: p in s.procs && s.procs[p].Running? ==> RunningOk(s.svc, s.procs[p]))
    && (forall p, q ::
          (p in s.procs && q in s.procs && p != q && s.procs[p].Running? && s.procs[q].Running? &&
           s.procs[p].key == s.procs[q].key) ==> s.procs[p].generation != s.procs[q].generation)
  }

  ghost predicate NothingOf(s: State, game: Game) {
    && (forall k :: k in s.cancels ==> !OfGame(k, GameID(game)))
    && (forall k :: k in s.snapshots ==> !OfGame(k, GameID(game)))
  }

  ghost predicate FlagsOk(s: State) {
    forall g: Game :: !GameEnabled(s.flags, g) ==> NothingOf(s, g)
  }

  ghost predicate Inv(s: Sys) {
    CancelsOk(s.svc) && ProcsOk(s) && FlagsOk(s.svc)
  }

  // ----- every step keeps it -----

  lemma CancelKeysInv(s: Sys, keys: set<string>)
    requires Inv(s)
    ensures Inv(s.(svc := CancelKeys(s.svc, keys)))
  {}

  /** Forgetting snapshots and moving the flags is safe if what a cleared flag covers is gone. */
  lemma ForgetInv(s: Sys, svc: State)
    requires CancelsOk(s.svc) && ProcsOk(s) && FlagsOk(svc)
    requires svc.cancels == s.svc.cancels && svc.counts == s.svc.counts && svc.cancelled == s.svc.cancelled
    requires svc.nextToken == s.svc.nextToken
    ensures Inv(s.(svc := svc))
  {}

  lemma CancelKeysProcs(s: Sys, keys: set<string>)
    requires CancelsOk(s.svc) && ProcsOk(s)
    ensures CancelsOk(CancelKeys(s.svc, keys)) && ProcsOk(s.(svc := CancelKeys(s.svc, keys)))
  {}

  lemma ClearProcs(s: Sys, id: string)
    requires CancelsOk(s.svc) && ProcsOk(s)
    ensures CancelsOk(Clear(s.svc, id)) && ProcsOk(s.(svc := Clear(s.svc, id)))
  {
    CancelKeysProcs(s, set k | k in s.svc.cancels.Keys && OfGame(k, id));
  }

  lemma SetFlagsClears(s: State, f: Flags)
    ensures FlagsOk(UpdateFlags(s, f))
  {}

  lemma SetFlagsProcs(s: Sys, f: Flags)
    requires CancelsOk(s.svc) && ProcsOk(s)
    ensures CancelsOk(UpdateFlags(s.svc, f)) && ProcsOk(s.(svc := UpdateFlags(s.svc, f)))
  {
    var s1 := s.(svc := s.svc.(flags := f));
    ClearProcs(s1, "tf2");
    var s2 := if f.tf2 then s1 else s1.(svc := Clear(s1.svc, "tf2"));
    ClearProcs(s2, "dota2");
    var s3 := if f.dota2 then s2 else s2.(svc := Clear(s2.svc, "dota2"));
    ClearProcs(s3, "steam");
  }

  lemma SetFlagsInv(s: Sys, f: Flags)
    requires Inv(s)
    ensures Inv(s.(svc := UpdateFlags(s.svc, f)))
  {
    SetFlagsProcs(s, f);
    SetFlagsClears(s.svc, f);
  }

  lemma GameKeys(account: string, game: Game, game': Game)
    ensures OfGame(InventoryKey(account, GameID(game)), GameID(game')) <==> game == game'
  {
    SuffixIffSameID(TrimSpace(account), GameID(game), GameID(game'));
  }

  lemma ServiceKeys(account: string, app: nat, game: Game)
    ensures !OfGame(InventoryKey(account, ServiceID(app)), GameID(game))
  {
    assert |ServiceID(app)| > |GameID(game)|;
    SuffixIffSameID(TrimSpace(account), ServiceID(app), GameID(game));
  }

  lemma BeginCancels(s: State, key: string)
    requires CancelsOk(s)
    ensures CancelsOk(Begin(s, key).0)
  {}

  lemma BeginRunning(s: State, key: string, r: Proc)
    requires CancelsOk(s) && r.Running? && RunningOk(s, r)
    ensures RunningOk(Begin(s, key).0, r)
  {}

  lemma BeginProcs(s: Sys, p: Pid, key: string)
    requires CancelsOk(s.svc) && ProcsOk(s) && p !in s.procs
    ensures ProcsOk(Started(s, p, Begin(s.svc, key)))
  {
    var t := Started(s, p, Begin(s.svc, key));
    forall x | x in t.procs && t.procs[x].Running? ensures RunningOk(t.svc, t.procs[x]) {
      if x != p {
        BeginRunning(s.svc, key, s.procs[x]);
      }
    }
  }

  lemma BeginInv(s: Sys, p: Pid, key: string)
    requires Inv(s) && p !in s.procs
    requires forall g :: OfGame(key, GameID(g)) ==> GameEnabled(s.svc.flags, g)
    ensures Inv(Started(s, p, Begin(s.svc, key)))
  {
    BeginCancels(s.svc, key);
    BeginProcs(s, p, key);
  }

  lemma StartInv(s: Sys, step: Step)
    requires Inv(s) && Enabled(s, step) && (step.StartGame? || step.StartService?)
    ensures Inv(Next(s, step))
  {
    if step.StartGame? {
      forall g ensures OfGame(InventoryKey(s.svc.steamID, GameID(step.game)), GameID(g)) <==> g == step.game {
        GameKeys(s.svc.steamID, step.game, g);
      }
      if BeginGame(s.svc, step.game).1.InFlight? {
        BeginInv(s, step.pid, InventoryKey(s.svc.steamID, GameID(step.game)));
      }
    } else {
      forall g ensures !OfGame(InventoryKey(s.svc.steamID, ServiceID(step.app)), GameID(g)) {
        ServiceKeys(s.svc.steamID, step.app, g);
      }
      if BeginService(s.svc, step.app).1.InFlight? {
        BeginInv(s, step.pid, InventoryKey(s.svc.steamID, ServiceID(step.app)));
      }
    }
  }

  lemma FinishInv(s: Sys, p: Pid, outcome: Option<seq<nat>>)
    requires Inv(s) && Enabled(s, Finish(p, outcome))
    ensures Inv(Next(s, Finish(p, outcome)))
  {}

  lemma NextInv(s: Sys, step: Step)
    requires Inv(s) && Enabled(s, step)
    ensures Inv(Next(s, step))
  {
    match step
    case StartGame(_, _) => StartInv(s, step);
    case StartService(_, _) => StartInv(s, step);
    case Finish(p, outcome) => FinishInv(s, p, outcome);
    case SetFlags(f) => SetFlagsInv(s, f);
    case Activate(_) => CancelKeysInv(s, s.svc.cancels.Keys);
    case Disconnect =>
      CancelKeysInv(s, s.svc.cancels.Keys);
      ForgetInv(s.(svc := CancelAll(s.svc)), Next(s, step).svc);
    case SetConnection(_, _) =>
    case Probe(account, app, items) =>
      forall g ensures !OfGame(InventoryKey(account, ServiceID(app)), GameID(g)) {
        ServiceKeys(account, app, g);
      }
  }

  lemma {:induction false} RunInv(states: seq<Sys>, steps: seq<Step>, i: nat)
    requires IsRun(states, steps) && i < |states|
    ensures Inv(states[i])
  {
    if i == 0 {
    } else {
      RunInv(states, steps, i - 1);
      NextInv(states[i - 1], steps[i - 1]);
    }
  }

  // ----- what holds over whole runs -----

  /** While a game's flag is off, no account has a snapshot stored for it. */
  lemma FlagOffNothingStored(states: seq<Sys>, steps: seq<Step>, i: nat, game: Game, account: string)
    requires IsRun(states, steps) && i < |states|
    requires !GameEnabled(states[i].svc.flags, game)
    ensures InventoryKey(account, GameID(game)) !in states[i].svc.snapshots
  {
    RunInv(states, steps, i);
    GameKeys(account, game, game);
    assert NothingOf(states[i].svc, game);
  }

  /** When a refresh of a game's inventory starts, and under which key. */
  predicate GameStarts(s: State, game: Game, key: string) {
    && s.connected && s.steamID != ""
    && match game
       case Steam => s.flags.steam && key == TrimSpace(s.steamID) + "\0steam"
       case TF2 => s.flags.tf2 && key == TrimSpace(s.steamID) + "\0tf2"
       case Dota2 => s.flags.dota2 && key == TrimSpace(s.steamID) + "\0dota2"
  }

  /** And one of an app's Steam inventory: the Steam id must be a positive number of 64 bits. */
  predicate ServiceStarts(s: State, app: nat, key: string) {
    && app > 0 && s.flags.steam && s.connected
    && AllDigits(s.steamID) && 0 < Value(s.steamID) < 0x1_0000_0000_0000_0000
    && key == TrimSpace(s.steamID) + "\0steam-service:" + Dec(app)
  }

  /** What a refresh of `key` that starts does: it takes the next generation and cancels the one before it. */
  ghost predicate IsStarted(s: Sys, t: Sys, p: Pid, key: string) {
    var older := if key in s.svc.cancels then {s.svc.cancels[key]} else {};
    var items := if key in s.svc.snapshots then s.svc.snapshots[key].items else [];
    var generation := 1 + if key in s.svc.counts then s.svc.counts[key] else 0;
    && t.procs == s.procs[p := Running(key, generation, s.svc.nextToken)]
    && t.svc == s.svc.(
         cancels := s.svc.cancels[key := s.svc.nextToken],
         counts := s.svc.counts[key := generation],
         snapshots := s.svc.snapshots[key := Snapshot(Loading, items)],
         cancelled := s.svc.cancelled + older,
         nextToken := s.svc.nextToken + 1)
  }

  /** A call to refresh a game either starts a refresh exactly as above, or changes nothing and says why. */
  lemma StartGameIff(s: Sys, p: Pid, game: Game, key: string)
    requires Enabled(s, StartGame(p, game))
    ensures var t := Next(s, StartGame(p, game));
      && (p in t.procs && t.procs[p].Running? && t.procs[p].key == key <==> GameStarts(s.svc, game, key))
      && (GameStarts(s.svc, game, key) ==> IsStarted(s, t, p, key))
      && (p !in t.procs ==> t == s)
      && (p in t.procs ==> exists k :: GameStarts(s.svc, game, k))
  {
    var k := InventoryKey(s.svc.steamID, GameID(game));
    GameKeyText(s.svc.steamID, game);
    assert p in Next(s, StartGame(p, game)).procs ==> GameStarts(s.svc, game, k);
  }

  lemma StartServiceIff(s: Sys, p: Pid, app: nat, key: string)
    requires Enabled(s, StartService(p, app))
    ensures var t := Next(s, StartService(p, app));
      && (p in t.procs && t.procs[p].Running? && t.procs[p].key == key <==> ServiceStarts(s.svc, app, key))
      && (ServiceStarts(s.svc, app, key) ==> IsStarted(s, t, p, key))
      && (p !in t.procs ==> t == s)
      && (p in t.procs ==> exists k :: ServiceStarts(s.svc, app, k))
  {
    var k := InventoryKey(s.svc.steamID, ServiceID(app));
    ServiceKeyText(s.svc.steamID, app);
    assert p in Next(s, StartService(p, app)).procs ==> ServiceStarts(s.svc, app, k);
  }

  lemma GameKeyText(steamID: string, game: Game)
    ensures InventoryKey(steamID, GameID(game)) ==
            TrimSpace(steamID) + match game case Steam => "\0steam" case TF2 => "\0tf2" case Dota2 => "\0dota2"
  {
    Associate(TrimSpace(steamID), "\0", GameID(game));
    assert "\0" + "tf2" == "\0tf2" && "\0" + "dota2" == "\0dota2" && "\0" + "steam" == "\0steam";
  }

  lemma ServiceKeyText(steamID: string, app: nat)
    ensures InventoryKey(steamID, ServiceID(app)) == TrimSpace(steamID) + "\0steam-service:" + Dec(app)
  {
    var id, prefix := TrimSpace(steamID), "steam-service:";
    Associate(id, "\0", prefix + Dec(app));
    Associate("\0", prefix, Dec(app));
    Associate(id, "\0" + prefix, Dec(app));
    assert "\0" + prefix == "\0steam-service:";
  }

  /** The flags switch off the game that the key is of. */
  predicate Clears(f: Flags, key: string) {
    || (!f.tf2 && HasSuffix(key, "\0tf2"))
    || (!f.dota2 && HasSuffix(key, "\0dota2"))
    || (!f.steam && HasSuffix(key, "\0steam"))
  }

  /** The steps after which an older refresh of `key` must not store its result. */
  predicate Supersedes(s: Sys, step: Step, key: string) {
    match step
    case StartGame(_, game) => GameStarts(s.svc, game, key)
    case StartService(_, app) => ServiceStarts(s.svc, app, key)
    case SetFlags(f) => Clears(f, key)
    case Activate(next) => s.svc.steamID != "" && s.svc.steamID != next
    case Disconnect => true
    case _ => false
  }

  /** One step bumps a running refresh's generation exactly if it supersedes it. */
  lemma StepSupersedes(s: Sys, step: Step, p: Pid)
    requires Inv(s) && Enabled(s, step) && p in s.procs && s.procs[p].Running?
    requires !(step.Finish? && step.pid == p)
    ensures var r, t := s.procs[p], Next(s, step);
      && p in t.procs && t.procs[p] == r
      && (r.generation == Count(t.svc, r.key) <==> r.generation == Count(s.svc, r.key) && !Supersedes(s, step, r.key))
  {
    var r, t := s.procs[p], Next(s, step);
    assert RunningOk(s.svc, r);
    if step.SetFlags? {
      FlagsSupersede(s.svc, step.flags, r.key);
    } else if step.StartGame? || step.StartService? {
      StartSupersedes(s, step, r.key);
    } else if step.Finish? {
      assert Count(t.svc, r.key) == Count(s.svc, r.key);
    }
  }

  lemma StartSupersedes(s: Sys, step: Step, key: string)
    requires Enabled(s, step) && (step.StartGame? || step.StartService?)
    ensures var t := Next(s, step).svc;
      if Supersedes(s, step, key) then Count(t, key) == Count(s.svc, key) + 1 else Count(t, key) == Count(s.svc, key)
    ensures forall p <- s.procs :: p in Next(s, step).procs && Next(s, step).procs[p] == s.procs[p]
  {
    if step.StartGame? {
      StartGameIff(s, step.pid, step.game, key);
    } else {
      StartServiceIff(s, step.pid, step.app, key);
    }
  }

  /** A settings change bumps the running generation of a key exactly if it switches its game off. */
  lemma FlagsSupersede(s: State, f: Flags, key: string)
    requires CancelsOk(s)
    ensures Count(s, key) <= Count(UpdateFlags(s, f), key)
    ensures key in s.cancels ==> (Count(UpdateFlags(s, f), key) == Count(s, key) <==> !Clears(f, key))
  {
    var s1 := s.(flags := f);
    ClearCount(s1, "tf2", key);
    var s2 := if f.tf2 then s1 else Clear(s1, "tf2");
    ClearCount(s2, "dota2", key);
    var s3 := if f.dota2 then s2 else Clear(s2, "dota2");
    ClearCount(s3, "steam", key);
    SuffixTexts(key);
  }

  lemma SuffixTexts(key: string)
    ensures OfGame(key, "tf2") <==> HasSuffix(key, "\0tf2")
    ensures OfGame(key, "dota2") <==> HasSuffix(key, "\0dota2")
    ensures OfGame(key, "steam") <==> HasSuffix(key, "\0steam")
  {
    assert "\0" + "tf2" == "\0tf2" && "\0" + "dota2" == "\0dota2" && "\0" + "steam" == "\0steam";
  }

  lemma ClearCount(s: State, id: string, key: string)
    ensures Count(Clear(s, id), key) == Count(s, key) + if key in s.cancels && OfGame(key, id) then 1 else 0
    ensures key in Clear(s, id).cancels <==> key in s.cancels && !OfGame(key, id)
  {}

  ghost predicate Superseded(states: seq<Sys>, steps: seq<Step>, i: nat, j: nat, key: string)
    requires |states| == |steps| + 1 && j < |states|
  {
    exists k :: i <= k < j && Supersedes(states[k], steps[k], key)
  }

  lemma SupersededNow(states: seq<Sys>, steps: seq<Step>, i: nat, j: nat, key: string)
    requires |states| == |steps| + 1 && i <= j < |steps|
    ensures Superseded(states, steps, i, j + 1, key) <==>
            Superseded(states, steps, i, j, key) || Supersedes(states[j], steps[j], key)
  {}

  lemma RunStepSupersedes(states: seq<Sys>, steps: seq<Step>, j: nat, p: Pid)
    requires IsRun(states, steps) && j < |steps| && p in states[j].procs && states[j].procs[p].Running?
    requires !(steps[j].Finish? && steps[j].pid == p)
    ensures var r := states[j].procs[p];
      && p in states[j + 1].procs && states[j + 1].procs[p] == r
      && (r.generation == Count(states[j + 1].svc, r.key) <==>
          r.generation == Count(states[j].svc, r.key) && !Supersedes(states[j], steps[j], r.key))
  {
    RunInv(states, steps, j);
    StepSupersedes(states[j], steps[j], p);
  }

  lemma CurrentStep(states: seq<Sys>, steps: seq<Step>, i: nat, j: nat, p: Pid)
    requires IsRun(states, steps) && i <= j < |steps| && p in states[j].procs && states[j].procs[p].Running?
    requires !(steps[j].Finish? && steps[j].pid == p)
    ensures var r := states[j].procs[p];
      && p in states[j + 1].procs && states[j + 1].procs[p] == r
      && ((r.generation == Count(states[j].svc, r.key) <==> !Superseded(states, steps, i, j, r.key)) ==>
          (r.generation == Count(states[j + 1].svc, r.key) <==> !Superseded(states, steps, i, j + 1, r.key)))
  {
    RunStepSupersedes(states, steps, j, p);
    SupersededNow(states, steps, i, j, states[j].procs[p].key);
  }

  /** A running refresh still holds the last generation exactly if nothing superseded it since step i. */
  lemma {:induction false} CurrentIff(states: seq<Sys>, steps: seq<Step>, i: nat, j: nat, p: Pid)
    requires IsRun(states, steps) && i <= j < |states|
    requires p in states[i].procs && states[i].procs[p].Running?
    requires states[i].procs[p].generation == Count(states[i].svc, states[i].procs[p].key)
    requires forall k :: i <= k < j ==> !(steps[k].Finish? && steps[k].pid == p)
    ensures p in states[j].procs && states[j].procs[p] == states[i].procs[p]
    ensures var r := states[i].procs[p];
      r.generation == Count(states[j].svc, r.key) <==> !Superseded(states, steps, i, j, r.key)
  {
    if i == j {
    } else {
      CurrentIff(states, steps, i, j - 1, p);
      CurrentStep(states, steps, i, j - 1, p);
    }
  }

  /**
    A refresh begun by step i and finished by step j stores its result exactly when no newer
    refresh of its key, clearing of its game or account change came between; and its context
    was cancelled before it finished exactly when one did.
   */
  lemma RefreshStoresIff(states: seq<Sys>, steps: seq<Step>, i: nat, j: nat, p: Pid, outcome: Option<seq<nat>>)
    requires IsRun(states, steps) && i < j < |steps|
    requires steps[i].StartGame? || steps[i].StartService?
    requires steps[i].pid == p && p in states[i + 1].procs
    requires steps[j] == Finish(p, outcome)
    requires forall k :: i < k < j ==> !(steps[k].Finish? && steps[k].pid == p)
    ensures var r := states[i + 1].procs[p];
      r.Running? &&
      var superseded := exists k :: i < k < j && Supersedes(states[k], steps[k], r.key);
      && states[j + 1].procs[p] == Ended(!superseded)
      && (r.token in states[j].svc.cancelled <==> superseded)
      && states[j + 1].svc.snapshots ==
           if superseded then states[j].svc.snapshots
           else states[j].svc.snapshots[
             r.key := if outcome.Some? then Snapshot(Loaded, outcome.value) else Snapshot(Failed, [])]
  {
    StartedIsCurrent(states[i], steps[i]);
    CurrentIff(states, steps, i + 1, j, p);
    RunInv(states, steps, j);
    var r := states[i + 1].procs[p];
    assert RunningOk(states[j].svc, r) && CancelsOk(states[j].svc);
    assert Superseded(states, steps, i + 1, j, r.key) <==>
      exists k :: i < k < j && Supersedes(states[k], steps[k], r.key);
  }

  lemma StartedIsCurrent(s: Sys, step: Step)
    requires Enabled(s, step) && (step.StartGame? || step.StartService?) && step.pid in Next(s, step).procs
    ensures var t := Next(s, step);
      t.procs[step.pid].Running? && t.procs[step.pid].generation == Count(t.svc, t.procs[step.pid].key)
  {}

  /**
    The flag that covers the Steam inventory does not clear the per-app Steam inventories: their
    keys end in "steam-service:N", which the suffix test for "steam" misses.  They outlive it, and
    so does a refresh of one that is still running.
   */
  lemma ServiceSnapshotsOutliveFlag(s: State, f: Flags, account: string, app: nat)
    ensures var key := InventoryKey(account, ServiceID(app));
      var t := UpdateFlags(s, f);
      && (key in s.snapshots ==> key in t.snapshots && t.snapshots[key] == s.snapshots[key])
      && (key in s.cancels ==> key in t.cancels && t.cancels[key] == s.cancels[key])
      && Count(t, key) == Count(s, key)
  {
    ServiceKeys(account, app, TF2);
    ServiceKeys(account, app, Dota2);
    ServiceKeys(account, app, Steam);
    var key := InventoryKey(account, ServiceID(app));
    var s1 := s.(flags := f);
    ClearCount(s1, "tf2", key);
    var s2 := if f.tf2 then s1 else Clear(s1, "tf2");
    ClearCount(s2, "dota2", key);
    var s3 := if f.dota2 then s2 else Clear(s2, "dota2");
    ClearCount(s3, "steam", key);
  }

  function StoredBehindFlag(app: nat, items: seq<nat>): (steps: seq<Step>)
    ensures |steps| == 3
  {
    [StartService(0, app), SetFlags(Flags(true, true, false)), Finish(0, Some(items))]
  }

  /** Such a run: the flag is switched off during a refresh, whose result is stored all the same. */
  lemma ServiceStoredWithFlagOff(start: Sys, app: nat, items: seq<nat>)
    requires Init(start) && app != 0 && start.svc.flags.steam && start.svc.connected && start.svc.steamID != ""
    requires ParseUint(start.svc.steamID, 0x1_0000_0000_0000_0000) !in {None, Some(0)}
    ensures exists states: seq<Sys> ::
      && IsRun(states, StoredBehindFlag(app, items)) && states[0] == start
      && var key, svc := InventoryKey(start.svc.steamID, ServiceID(app)), states[3].svc;
         !svc.flags.steam && key in svc.snapshots && svc.snapshots[key] == Snapshot(Loaded, items)
  {
    var off, key := Flags(true, true, false), InventoryKey(start.svc.steamID, ServiceID(app));
    var s1 := Next(start, StartService(0, app));
    ServiceStarted(start, app);
    var s2 := Next(s1, SetFlags(off));
    ServiceSnapshotsOutliveFlag(s1.svc, off, start.svc.steamID, app);
    assert UpdateFlags(s1.svc, off).flags == off;
    FinishStores(s2, 0, items);
    var s3 := Next(s2, Finish(0, Some(items)));
    ThreeSteps(start, s1, s2, s3, StoredBehindFlag(app, items));
  }

  lemma ServiceStarted(start: Sys, app: nat)
    requires Init(start) && app != 0 && start.svc.flags.steam && start.svc.connected && start.svc.steamID != ""
    requires ParseUint(start.svc.steamID, 0x1_0000_0000_0000_0000) !in {None, Some(0)}
    ensures var s, key := Next(start, StartService(0, app)), InventoryKey(start.svc.steamID, ServiceID(app));
      0 in s.procs && s.procs[0].Running? && s.procs[0].key == key && s.procs[0].generation == Count(s.svc, key)
  {}

  lemma FinishStores(s: Sys, p: Pid, items: seq<nat>)
    requires p in s.procs && s.procs[p].Running? && s.procs[p].generation == Count(s.svc, s.procs[p].key)
    ensures var key, svc := s.procs[p].key, Next(s, Finish(p, Some(items))).svc;
      svc.flags == s.svc.flags && key in svc.snapshots && svc.snapshots[key] == Snapshot(Loaded, items)
  {}

  lemma ThreeSteps(start: Sys, s1: Sys, s2: Sys, s3: Sys, steps: seq<Step>)
    requires Init(start) && |steps| == 3
    requires Enabled(start, steps[0]) && s1 == Next(start, steps[0])
    requires Enabled(s1, steps[1]) && s2 == Next(s1, steps[1])
    requires Enabled(s2, steps[2]) && s3 == Next(s2, steps[2])
    ensures var states := [start, s1, s2, s3]; IsRun(states, steps) && states[0] == start && states[3] == s3
  {}
}
