/**
  The price cache.  A query is answered from a fresh entry, or waits for the scan of its key that is
  under way, or scans; a failed scan falls back on the entry, if it is not too old.

  The functions give each critical section's effect on the values of the fields; the class updates
  the fields.  Time is an integer.
 */
module PriceCaches {
  import opened Prelude
  import opened PriceQueries

  datatype Freshness = Unset | Fresh | Stale

  datatype Prices = Prices(items: seq<Item>, errors: seq<string>, state: Freshness)

  type Scanned = Result<Prices, string>

  datatype Entry = Entry(prices: Prices, expiresAt: int, staleUntil: int)

  /** A scan under way: how often its channel has been closed, and what its waiters get. */
  datatype Flight = Flight(closes: nat, outcome: Scanned)

  datatype State = State(entries: map<string, Entry>, active: map<string, nat>, flights: seq<Flight>)

  /** What the first critical section decides. */
  datatype Entered = Hit(answer: Prices) | Join(flight: nat) | Lead(flight: nat, stale: Option<Entry>)

  const NOTHING := Prices([], [], Unset)

  function Reordered(p: Prices, requested: seq<string>): Prices {
    p.(items := OrderItems(p.items, requested))
  }

  function WithState(p: Prices, requested: seq<string>, state: Freshness): Prices {
    Reordered(p, requested).(state := state)
  }

  function Lookup(s: State, key: string): Option<Entry> {
    if key in s.entries then Some(s.entries[key]) else None
  }

  function Enter(s: State, key: string, now: int, requested: seq<string>): (State, Entered) {
    if key in s.entries && now < s.entries[key].expiresAt then
      (s, Hit(WithState(s.entries[key].prices, requested, Fresh)))
    else if key in s.active then (s, Join(s.active[key]))
    else
      var f := |s.flights|;
      (s.(active := s.active[key := f], flights := s.flights + [Flight(0, Ok(NOTHING))]), Lead(f, Lookup(s, key)))
  }

  /** What the query and its waiters get from a scan, given the entry found when the query began, at `now`. */
  function Outcome(now: int, stale: Option<Entry>, scanned: Scanned): Scanned {
    match scanned
    case Ok(p) => Ok(p.(state := Fresh))
    case Err(e) =>
      if stale.Some? && now < stale.value.staleUntil then
        var p := stale.value.prices;
        Ok(p.(errors := p.errors + ["refresh failed: " + e], state := Stale))
      else Err(e)
  }

  function Renewed(p: Prices, ttl: int, clock: int): Entry {
    Entry(p, clock + ttl, clock + ttl + 6 * ttl)
  }

  function Finish(s: State, ttl: int, key: string, flight: nat, now: int, stale: Option<Entry>, scanned: Scanned,
                  clock: int): State
    requires flight < |s.flights|
  {
    State(
      if scanned.Ok? then s.entries[key := Renewed(scanned.value, ttl, clock)] else s.entries,
      s.active - {key},
      s.flights[flight := Flight(s.flights[flight].closes + 1, Outcome(now, stale, scanned))])
  }

  function OwnAnswer(o: Scanned, requested: seq<string>): Scanned {
    match o
    case Ok(p) => Ok(WithState(p, requested, p.state))
    case Err(e) => Err(e)
  }

  function WaiterAnswer(o: Scanned, requested: seq<string>): Scanned {
    match o
    case Ok(p) => Ok(Reordered(p, requested))
    case Err(e) => Err(e)
  }

  /** The cache as the program updates it.  The methods are its critical sections. */
  class PriceCache {
    const ttl: int
    var entries: map<string, Entry>
    var active: map<string, nat>
    var flights: seq<Flight>

    ghost function View(): State
      reads this
    {
      State(entries, active, flights)
    }

    /** A ttl that is not positive becomes five minutes, in nanoseconds. */
    constructor (ttl: int)
      ensures View() == State(map[], map[], [])
      ensures this.ttl > 0 && (ttl > 0 ==> this.ttl == ttl)
    {
      this.ttl := if ttl <= 0 then 300_000_000_000 else ttl;
      entries, active, flights := map[], map[], [];
    }

    method BeginQuery(key: string, now: int, requested: seq<string>) returns (r: Entered)
      modifies this
      ensures (View(), r) == Enter(old(View()), key, now, requested)
    {
      if key in entries {
        var cached := entries[key];
        if now < cached.expiresAt {
          var items := OrderItemsOf(cached.prices.items, requested);
          return Hit(cached.prices.(items := items, state := Fresh));
        }
      }
      var stale := if key in entries then Some(entries[key]) else None;
      if key in active {
        return Join(active[key]);
      }
      var running := |flights|;
      flights := flights + [Flight(0, Ok(NOTHING))];
      active := active[key := running];
      return Lead(running, stale);
    }

    method EndQuery(key: string, running: nat, now: int, stale: Option<Entry>, scanned: Scanned, clock: int,
                    requested: seq<string>)
      returns (answer: Scanned)
      requires running < |flights|
      modifies this
      ensures View() == Finish(old(View()), ttl, key, running, now, stale, scanned, clock)
      ensures answer == OwnAnswer(Outcome(now, stale, scanned), requested)
    {
      var state := Fresh;
      var result := scanned;
      if scanned.Ok? {
        var freshUntil := clock + ttl;
        entries := entries[key := Entry(scanned.value, freshUntil, freshUntil + 6 * ttl)];
      } else if stale.Some? && now < stale.value.staleUntil {
        var p := stale.value.prices;
        result := Ok(p.(errors := p.errors + ["refresh failed: " + scanned.error]));
        state := Stale;
      }
      if result.Ok? {
        result := Ok(result.value.(state := state));
      }
      flights := flights[running := Flight(flights[running].closes + 1, result)];
      active := active - {key};
      if result.Err? {
        return result;
      }
      var items := OrderItemsOf(result.value.items, requested);
      return Ok(result.value.(items := items, state := state));
    }

    /** A waiter's answer, once its flight's channel is closed. */
    method AwaitFlight(running: nat, requested: seq<string>) returns (answer: Scanned)
      requires running < |flights| && flights[running].closes > 0
      ensures answer == WaiterAnswer(flights[running].outcome, requested)
    {
      var outcome := flights[running].outcome;
      if outcome.Err? {
        return outcome;
      }
      var items := OrderItemsOf(outcome.value.items, requested);
      return Ok(outcome.value.(items := items));
    }
  }
}
