/**
  Inventory refreshes of the other games.  Each refresh takes a generation number for its key;
  settings and account changes bump the generations of whatever they cancel, so that a late
  result finds its generation gone.

  As in `GCSessions`, a function is one critical section and the class `MultiGame` performs it
  on mutable fields.
 */
module GameRefreshes {
  import opened Prelude
  import opened Strings

  type Token = nat  // a refresh context

  datatype Game = Steam | TF2 | Dota2
  datatype Flags = Flags(tf2: bool, dota2: bool, steam: bool)

  datatype Load = Loading | Failed | Loaded
  datatype Snapshot = Snapshot(load: Load, items: seq<nat>)

  datatype State = State(
    flags: Flags,
    connected: bool,
    steamID: string,
    cancels: map<string, Token>,
    counts: map<string, nat>,
    snapshots: map<string, Snapshot>,
    cancelled: set<Token>,
    nextToken: Token)

  datatype Begun =
    | BlockedByFlag
    | NoConnection
    | InvalidApp
    | InvalidSteamID
    | InFlight(key: string, generation: nat, token: Token)

  function GameID(game: Game): string {
    match game case Steam => "steam" case TF2 => "tf2" case Dota2 => "dota2"
  }

  predicate GameEnabled(f: Flags, game: Game) {
    match game case Steam => f.steam case TF2 => f.tf2 case Dota2 => f.dota2
  }

  function ServiceID(app: nat): string {
    "steam-service:" + Dec(app)
  }

  function InventoryKey(steamID: string, id: string): string {
    TrimSpace(steamID) + "\0" + id
  }

  predicate OfGame(key: string, id: string) {
    HasSuffix(key, "\0" + id)
  }

  function Count(s: State, key: string): nat {
    if key in s.counts then s.counts[key] else 0
  }

  // ----- cancelling -----

  /** Cancels the refreshes of the given keys, forgets their contexts and bumps their generations. */
  function CancelKeys(s: State, keys: set<string>): State {
    var hit := keys * s.cancels.Keys;
    s.(cancelled := s.cancelled + (set k | k in hit :: s.cancels[k]),
       cancels := s.cancels - hit,
       counts := map k | k in s.counts.Keys + hit :: Count(s, k) + if k in hit then 1 else 0)
  }

  function CancelAll(s: State): State {
    CancelKeys(s, s.cancels.Keys)
  }

  function Clear(s: State, id: string): State {
    var s1 := CancelKeys(s, set k | k in s.cancels.Keys && OfGame(k, id));
    s1.(snapshots := map k | k in s.snapshots.Keys && !OfGame(k, id) :: s.snapshots[k])
  }

  function ClearAll(s: State): State {
    CancelAll(s).(snapshots := map[])
  }

  function UpdateFlags(s: State, next: Flags): State {
    var s1 := s.(flags := next);
    var s2 := if next.tf2 then s1 else Clear(s1, "tf2");
    var s3 := if next.dota2 then s2 else Clear(s2, "dota2");
    if next.steam then s3 else Clear(s3, "steam")
  }

  /** The part of an account activation that touches refreshes. */
  function ChangeAccount(s: State, nextSteamID: string): State {
    if s.steamID != "" && s.steamID != nextSteamID then CancelAll(s) else s
  }

  // ----- refreshing -----

  function Begin(s: State, key: string): (State, Begun) {
    var generation, token := Count(s, key) + 1, s.nextToken;
    var loading := Snapshot(Loading, if key in s.snapshots then s.snapshots[key].items else []);
    (s.(cancelled := if key in s.cancels then s.cancelled + {s.cancels[key]} else s.cancelled,
        cancels := s.cancels[key := token],
        counts := s.counts[key := generation],
        snapshots := s.snapshots[key := loading],
        nextToken := token + 1),
     InFlight(key, generation, token))
  }

  function BeginGame(s: State, game: Game): (State, Begun) {
    if !GameEnabled(s.flags, game) then (s, BlockedByFlag)
    else if !s.connected || s.steamID == "" then (s, NoConnection)
    else Begin(s, InventoryKey(s.steamID, GameID(game)))
  }

  function BeginService(s: State, app: nat): (State, Begun) {
    if app == 0 then (s, InvalidApp)
    else if !s.flags.steam then (s, BlockedByFlag)
    else if !s.connected || s.steamID == "" then (s, NoConnection)
    else if ParseUint(s.steamID, 0x1_0000_0000_0000_0000) in {None, Some(0)} then (s, InvalidSteamID)
    else Begin(s, InventoryKey(s.steamID, ServiceID(app)))
  }

  /** Ends a refresh: `outcome` None is a failed request.  Its own context is cancelled on return. */
  function End(s: State, key: string, generation: nat, token: Token, outcome: Option<seq<nat>>): (State, bool) {
    var s1 := s.(cancelled := s.cancelled + {token});
    if Count(s, key) != generation then (s1, false)
    else
      var result := if outcome.Some? then Snapshot(Loaded, outcome.value) else Snapshot(Failed, []);
      (s1.(cancels := s.cancels - {key}, snapshots := s.snapshots[key := result]), true)
  }

  /** A probe of the owned games stores what it found without taking a generation. */
  function StoreProbe(s: State, steamID: string, app: nat, items: seq<nat>): State {
    s.(snapshots := s.snapshots[InventoryKey(steamID, ServiceID(app)) := Snapshot(Loaded, items)])
  }

  lemma CancelNone(s: State)
    ensures CancelKeys(s, {}) == s
  {}

  lemma CancelOneMore(s: State, done: set<string>, key: string)
    requires key in s.cancels && key !in done
    ensures key in CancelKeys(s, done).cancels
    ensures CancelKeys(CancelKeys(s, done), {key}) == CancelKeys(s, done + {key})
  {
    var hit := done * s.cancels.Keys;
    var s1 := CancelKeys(s, done);
    assert (done + {key}) * s.cancels.Keys == hit + {key};
    assert {key} * s1.cancels.Keys == {key};
    CancelOneMoreCounts(s, done, key);
    assert CancelKeys(s1, {key}).cancelled == CancelKeys(s, done + {key}).cancelled;
  }

  lemma CancelOneMoreCounts(s: State, done: set<string>, key: string)
    requires key in s.cancels && key !in done
    ensures CancelKeys(CancelKeys(s, done), {key}).counts == CancelKeys(s, done + {key}).counts
  {}

  class MultiGame {
    var flags: Flags
    var connected: bool
    var steamID: string
    var gameCancels: map<string, Token>
    var gameRefreshes: map<string, nat>
    var gameInventories: map<string, Snapshot>
    var cancelled: set<Token>
    var nextToken: Token

    ghost function View(): State
      reads this
    {
      State(flags, connected, steamID, gameCancels, gameRefreshes, gameInventories, cancelled, nextToken)
    }

    method BumpRefresh(key: string)
      modifies this`gameRefreshes
      ensures gameRefreshes == old(gameRefreshes)[key := Count(old(View()), key) + 1]
    {
      var count := 0;
      if key in gameRefreshes {
        count := gameRefreshes[key];
      }
      gameRefreshes := gameRefreshes[key := count + 1];
    }

    method CancelOne(key: string)
      requires key in gameCancels
      modifies this
      ensures View() == CancelKeys(old(View()), {key})
    {
      ghost var s := View();
      cancelled := cancelled + {gameCancels[key]};
      gameCancels := gameCancels - {key};
      BumpRefresh(key);
      assert {key} * s.cancels.Keys == {key};
      assert gameRefreshes == CancelKeys(s, {key}).counts;
    }

    /** The loop both clearing functions run, over the keys of `gameCancels` in any order. */
    method CancelRefreshes(keys: set<string>)
      requires keys <= gameCancels.Keys
      modifies this
      ensures View() == CancelKeys(old(View()), keys)
    {
      ghost var s := View();
      var left := keys;
      CancelNone(s);
      assert keys - left == {};
      while left != {}
        invariant left <= keys && View() == CancelKeys(s, keys - left)
        decreases left
      {
        var key :| key in left;
        CancelOneMore(s, keys - left, key);
        CancelOne(key);
        assert keys - left + {key} == keys - (left - {key});
        left := left - {key};
      }
      assert keys - {} == keys;
    }

    method CancelAllGameRefreshes()
      modifies this
      ensures View() == CancelAll(old(View()))
    {
      CancelRefreshes(gameCancels.Keys);
    }

    method ClearGameInventories(id: string)
      modifies this
      ensures View() == Clear(old(View()), id)
    {
      CancelRefreshes(set k | k in gameCancels.Keys && OfGame(k, id));
      var snapshots := gameInventories;
      var left := gameInventories.Keys;
      while left != {}
        invariant left <= snapshots.Keys
        invariant gameInventories == map k | k in snapshots.Keys && (k in left || !OfGame(k, id)) :: snapshots[k]
        invariant View() == Clear(old(View()), id).(snapshots := gameInventories)
        decreases left
      {
        var key :| key in left;
        if OfGame(key, id) {
          gameInventories := gameInventories - {key};
        }
        left := left - {key};
      }
    }

    method ClearAllGameInventories()
      modifies this
      ensures View() == ClearAll(old(View()))
    {
      CancelAllGameRefreshes();
      gameInventories := map[];
    }

    method UpdateSettings(next: Flags)
      modifies this
      ensures View() == UpdateFlags(old(View()), next)
    {
      flags := next;
      if !next.tf2 {
        ClearGameInventories("tf2");
      }
      if !next.dota2 {
        ClearGameInventories("dota2");
      }
      if !next.steam {
        ClearGameInventories("steam");
      }
    }

    method StartRefresh(key: string) returns (r: Begun)
      modifies this
      ensures (View(), r) == Begin(old(View()), key)
    {
      if key in gameCancels {
        cancelled := cancelled + {gameCancels[key]};
      }
      BumpRefresh(key);
      var loading := Snapshot(Loading, []);
      if key in gameInventories {
        loading := gameInventories[key].(load := Loading);
      }
      gameInventories := gameInventories[key := loading];
      gameCancels := gameCancels[key := nextToken];
      r := InFlight(key, gameRefreshes[key], nextToken);
      nextToken := nextToken + 1;
    }

    method BeginRefreshGameInventory(game: Game) returns (r: Begun)
      modifies this
      ensures (View(), r) == BeginGame(old(View()), game)
    {
      if !GameEnabled(flags, game) {
        return BlockedByFlag;
      }
      if !connected || steamID == "" {
        return NoConnection;
      }
      r := StartRefresh(InventoryKey(steamID, GameID(game)));
    }

    method BeginRefreshSteamInventoryService(app: nat) returns (r: Begun)
      modifies this
      ensures (View(), r) == BeginService(old(View()), app)
    {
      if app == 0 {
        return InvalidApp;
      }
      if !flags.steam {
        return BlockedByFlag;
      }
      if !connected || steamID == "" {
        return NoConnection;
      }
      var id := ParseUint(steamID, 0x1_0000_0000_0000_0000);
      if id.None? || id.value == 0 {
        return InvalidSteamID;
      }
      r := StartRefresh(InventoryKey(steamID, ServiceID(app)));
    }

    method EndRefreshGameInventory(key: string, generation: nat, token: Token, outcome: Option<seq<nat>>)
      returns (stored: bool)
      modifies this
      ensures (View(), stored) == End(old(View()), key, generation, token, outcome)
    {
      cancelled := cancelled + {token};
      var count := 0;
      if key in gameRefreshes {
        count := gameRefreshes[key];
      }
      if count != generation {
        return false;
      }
      gameCancels := gameCancels - {key};
      if outcome.None? {
        gameInventories := gameInventories[key := Snapshot(Failed, [])];
      } else {
        gameInventories := gameInventories[key := Snapshot(Loaded, outcome.value)];
      }
      return true;
    }
  }
}
