/** Every interleaving of queries to one price cache, under a clock that never goes back. */
module PriceCacheRuns {
  import opened Prelude
  import opened PriceQueries
  import opened PriceCaches

  type Pid = nat
  type Upper = string -> string

  /** A query computes its key and reads the clock, and then enters. */
  datatype Proc =
    | Begun(q: Query, key: string, now: int)
    | Leading(q: Query, key: string, now: int, flight: nat, stale: Option<Entry>)
    | Waiting(q: Query, key: string, now: int, flight: nat)
    | Answered(q: Query, key: string, answer: Scanned)
    | Abandoned

  datatype Sys = Sys(clock: int, cache: State, procs: map<Pid, Proc>)

  datatype Step =
    | Tick(d: nat)
    | Begin(pid: Pid, q: Query)
    | EnterCache(pid: Pid)
    | FinishScan(pid: Pid, scanned: Scanned)
    | Wake(pid: Pid)
    | GiveUp(pid: Pid)

  predicate Enabled(s: Sys, step: Step) {
    match step
    case Tick(_) => true
    case Begin(p, _) => p !in s.procs
    case EnterCache(p) => p in s.procs && s.procs[p].Begun?
    case FinishScan(p, _) => p in s.procs && s.procs[p].Leading? && s.procs[p].flight < |s.cache.flights|
    case Wake(p) =>
      p in s.procs && s.procs[p].Waiting? && s.procs[p].flight < |s.cache.flights|
      && s.cache.flights[s.procs[p].flight].closes > 0
    case GiveUp(p) => p in s.procs && s.procs[p].Waiting?
  }

  function After(r: Proc, e: Entered): Proc
    requires r.Begun?
  {
    match e
    case Hit(answer) => Answered(r.q, r.key, Ok(answer))
    case Join(f) => Waiting(r.q, r.key, r.now, f)
    case Lead(f, stale) => Leading(r.q, r.key, r.now, f, stale)
  }

  function Next(upper: Upper, ttl: int, s: Sys, step: Step): Sys
    requires Enabled(s, step)
  {
    match step
    case Tick(d) => s.(clock := s.clock + d)
    case Begin(p, q) => s.(procs := s.procs[p := Begun(q, Key(upper, q), s.clock)])
    case EnterCache(p) =>
      var r := s.procs[p];
      var (cache, e) := Enter(s.cache, r.key, r.now, r.q.names);
      s.(cache := cache, procs := s.procs[p := After(r, e)])
    case FinishScan(p, scanned) =>
      var r := s.procs[p];
      s.(cache := Finish(s.cache, ttl, r.key, r.flight, r.now, r.stale, scanned, s.clock),
         procs := s.procs[p := Answered(r.q, r.key, OwnAnswer(Outcome(r.now, r.stale, scanned), r.q.names))])
    case Wake(p) =>
      var r := s.procs[p];
      s.(procs := s.procs[p := Answered(r.q, r.key, WaiterAnswer(s.cache.flights[r.flight].outcome, r.q.names))])
    case GiveUp(p) => s.(procs := s.procs[p := Abandoned])
  }

  ghost predicate IsRun(upper: Upper, ttl: int, states: seq<Sys>, steps: seq<Step>) {
    && |states| == |steps| + 1
    && states[0].cache == State(map[], map[], []) && states[0].procs == map[]
    && forall i :: 0 <= i < |steps| ==>
         Enabled(states[i], steps[i]) && states[i + 1] == Next(upper, ttl, states[i], steps[i])
  }

  // ----- the invariant -----

  /** The scan of a key is led by one query, whose channel is open and whose key's entry is the one it found. */
  ghost predicate LeaderOk(c: State, r: Proc)
    requires r.Leading?
  {
    r.key in c.active && c.active[r.key] == r.flight && r.stale == Lookup(c, r.key)
  }

  ghost predicate LeadersOk(s: Sys) {
    && (forall p :: p in s.procs && s.procs[p].Leading? ==> LeaderOk(s.cache, s.procs[p]))
    && (forall p, p' :: (p in s.procs && p' in s.procs && s.procs[p].Leading? && s.procs[p'].Leading? &&
                         s.procs[p].key == s.procs[p'].key) ==> p == p')
  }

  /** An active scan's channel is open. */
  ghost predicate FlightsOk(c: State) {
    && (forall key :: key in c.active ==> c.active[key] < |c.flights| && c.flights[c.active[key]].closes == 0)
    && (forall k, k' :: k in c.active && k' in c.active && c.active[k] == c.active[k'] ==> k == k')
  }

  ghost predicate IsActive(c: State, f: nat) {
    exists key :: key in c.active && c.active[key] == f
  }

  /** The channel of a scan that is no longer active has been closed, once. */
  ghost predicate EndedOk(c: State) {
    forall f: nat :: f < |c.flights| && !IsActive(c, f) ==> c.flights[f].closes == 1
  }

  ghost predicate Led(s: Sys, key: string) {
    exists p :: p in s.procs && s.procs[p].Leading? && s.procs[p].key == key
  }

  /** A waiter's channel is closed, or the scan it waits for is active. */
  ghost predicate WaiterOk(c: State, r: Proc)
    requires r.Waiting?
  {
    && r.flight < |c.flights|
    && (c.flights[r.flight].closes == 0 ==> r.key in c.active && c.active[r.key] == r.flight)
  }

  ghost predicate WaitersOk(s: Sys) {
    forall p :: p in s.procs && s.procs[p].Waiting? ==> WaiterOk(s.cache, s.procs[p])
  }

  ghost predicate AllLed(s: Sys) {
    forall key :: key in s.cache.active ==> Led(s, key)
  }

  ghost predicate Inv(s: Sys) {
    FlightsOk(s.cache) && EndedOk(s.cache) && LeadersOk(s) && WaitersOk(s) && AllLed(s)
  }

  // ----- every step keeps it -----

  lemma LedStays(s: Sys, t: Sys, key: string, p: Pid)
    requires Led(s, key) && p in t.procs && t.procs == s.procs[p := t.procs[p]]
    requires p in s.procs && s.procs[p].Leading? ==> s.procs[p].key != key
    ensures Led(t, key)
  {
    var q :| q in s.procs && s.procs[q].Leading? && s.procs[q].key == key;
    assert q in t.procs && t.procs[q] == s.procs[q];
  }

  lemma EnterLeaders(upper: Upper, ttl: int, s: Sys, p: Pid)
    requires FlightsOk(s.cache) && LeadersOk(s) && Enabled(s, EnterCache(p))
    ensures var t := Next(upper, ttl, s, EnterCache(p)); FlightsOk(t.cache) && LeadersOk(t)
  {
    var r, t := s.procs[p], Next(upper, ttl, s, EnterCache(p));
    forall x | x in t.procs && t.procs[x].Leading? ensures LeaderOk(t.cache, t.procs[x]) {
      if x != p {
        assert LeaderOk(s.cache, s.procs[x]);
      }
    }
    if t.procs[p].Leading? {
      forall x | x in t.procs && t.procs[x].Leading? && t.procs[x].key == r.key ensures x == p {
        assert x != p ==> LeaderOk(s.cache, s.procs[x]);
      }
    }
  }

  lemma EnterWaiters(upper: Upper, ttl: int, s: Sys, p: Pid)
    requires FlightsOk(s.cache) && WaitersOk(s) && Enabled(s, EnterCache(p))
    ensures WaitersOk(Next(upper, ttl, s, EnterCache(p)))
  {}

  lemma EnterEnded(upper: Upper, ttl: int, s: Sys, p: Pid)
    requires EndedOk(s.cache) && Enabled(s, EnterCache(p))
    ensures EndedOk(Next(upper, ttl, s, EnterCache(p)).cache)
  {
    var key, c, d := s.procs[p].key, s.cache, Next(upper, ttl, s, EnterCache(p)).cache;
    forall f: nat | IsActive(c, f) ensures IsActive(d, f) {
      var k :| k in c.active && c.active[k] == f;
      assert k in d.active && d.active[k] == f;
    }
    if |d.flights| > |c.flights| {
      assert key in d.active && d.active[key] == |c.flights|;
    }
  }

  lemma EnterInv(upper: Upper, ttl: int, s: Sys, p: Pid)
    requires Inv(s) && Enabled(s, EnterCache(p))
    ensures Inv(Next(upper, ttl, s, EnterCache(p)))
  {
    var t := Next(upper, ttl, s, EnterCache(p));
    EnterLeaders(upper, ttl, s, p);
    EnterEnded(upper, ttl, s, p);
    EnterWaiters(upper, ttl, s, p);
    forall key | key in t.cache.active ensures Led(t, key) {
      if key in s.cache.active {
        LedStays(s, t, key, p);
      } else {
        assert t.procs[p].Leading? && t.procs[p].key == key;
      }
    }
  }

  lemma FinishLeaders(upper: Upper, ttl: int, s: Sys, p: Pid, scanned: Scanned)
    requires FlightsOk(s.cache) && LeadersOk(s) && Enabled(s, FinishScan(p, scanned))
    ensures var t := Next(upper, ttl, s, FinishScan(p, scanned)); FlightsOk(t.cache) && LeadersOk(t)
  {
    var t := Next(upper, ttl, s, FinishScan(p, scanned));
    assert LeaderOk(s.cache, s.procs[p]);
    forall x | x in t.procs && t.procs[x].Leading? ensures LeaderOk(t.cache, t.procs[x]) {
      assert LeaderOk(s.cache, s.procs[x]);
    }
  }

  lemma FinishEnded(upper: Upper, ttl: int, s: Sys, p: Pid, scanned: Scanned)
    requires FlightsOk(s.cache) && EndedOk(s.cache) && LeadersOk(s) && Enabled(s, FinishScan(p, scanned))
    ensures EndedOk(Next(upper, ttl, s, FinishScan(p, scanned)).cache)
  {
    var r, c, d := s.procs[p], s.cache, Next(upper, ttl, s, FinishScan(p, scanned)).cache;
    assert LeaderOk(c, r);
    forall f: nat | IsActive(c, f) && f != r.flight ensures IsActive(d, f) {
      var k :| k in c.active && c.active[k] == f;
      assert k in d.active && d.active[k] == f;
    }
  }

  lemma FinishWaiters(upper: Upper, ttl: int, s: Sys, p: Pid, scanned: Scanned)
    requires FlightsOk(s.cache) && LeadersOk(s) && WaitersOk(s) && Enabled(s, FinishScan(p, scanned))
    ensures WaitersOk(Next(upper, ttl, s, FinishScan(p, scanned)))
  {
    var t := Next(upper, ttl, s, FinishScan(p, scanned));
    assert LeaderOk(s.cache, s.procs[p]);
    forall x | x in t.procs && t.procs[x].Waiting? ensures WaiterOk(t.cache, t.procs[x]) {
      assert WaiterOk(s.cache, s.procs[x]);
    }
  }

  lemma FinishInv(upper: Upper, ttl: int, s: Sys, p: Pid, scanned: Scanned)
    requires Inv(s) && Enabled(s, FinishScan(p, scanned))
    ensures Inv(Next(upper, ttl, s, FinishScan(p, scanned)))
  {
    var t := Next(upper, ttl, s, FinishScan(p, scanned));
    FinishLeaders(upper, ttl, s, p, scanned);
    FinishEnded(upper, ttl, s, p, scanned);
    FinishWaiters(upper, ttl, s, p, scanned);
    forall key | key in t.cache.active ensures Led(t, key) {
      LedStays(s, t, key, p);
    }
  }

  lemma OtherInv(upper: Upper, ttl: int, s: Sys, step: Step)
    requires Inv(s) && Enabled(s, step) && !step.EnterCache? && !step.FinishScan?
    ensures Inv(Next(upper, ttl, s, step))
  {
    var t := Next(upper, ttl, s, step);
    forall key | key in t.cache.active ensures Led(t, key) {
      if step.Tick? {
        var q :| q in s.procs && s.procs[q].Leading? && s.procs[q].key == key;
        assert q in t.procs && t.procs[q] == s.procs[q];
      } else {
        LedStays(s, t, key, step.pid);
      }
    }
  }

  lemma {:induction false} RunInv(upper: Upper, ttl: int, states: seq<Sys>, steps: seq<Step>, i: nat)
    requires IsRun(upper, ttl, states, steps) && i < |states|
    ensures Inv(states[i])
  {
    if i == 0 {
    } else {
      RunInv(upper, ttl, states, steps, i - 1);
      match steps[i - 1]
      case EnterCache(p) => EnterInv(upper, ttl, states[i - 1], p);
      case FinishScan(p, scanned) => FinishInv(upper, ttl, states[i - 1], p, scanned);
      case _ => OtherInv(upper, ttl, states[i - 1], steps[i - 1]);
    }
  }

  // ----- what holds over whole runs -----

  ghost predicate Leads(s: Sys, p: Pid, f: nat) {
    p in s.procs && s.procs[p].Leading? && s.procs[p].flight == f
  }

  /**
    A key is active exactly while one query scans for it, and never two; and a scan's channel is open
    exactly while a query leads it, and has been closed exactly once afterwards.
   */
  lemma ActiveIffScanning(upper: Upper, ttl: int, states: seq<Sys>, steps: seq<Step>, i: nat, key: string)
    requires IsRun(upper, ttl, states, steps) && i < |states|
    ensures key in states[i].cache.active <==> Led(states[i], key)
    ensures forall p, q ::
      (p in states[i].procs && q in states[i].procs && states[i].procs[p].Leading? && states[i].procs[q].Leading? &&
       states[i].procs[p].key == states[i].procs[q].key) ==> p == q
    ensures forall f: nat :: f < |states[i].cache.flights| ==>
      states[i].cache.flights[f].closes == if exists p :: Leads(states[i], p, f) then 0 else 1
  {
    RunInv(upper, ttl, states, steps, i);
    forall f: nat | f < |states[i].cache.flights|
      ensures states[i].cache.flights[f].closes == if exists p :: Leads(states[i], p, f) then 0 else 1
    {
      ClosedIffEnded(states[i], f);
    }
  }

  lemma ClosedIffEnded(s: Sys, f: nat)
    requires Inv(s) && f < |s.cache.flights|
    ensures s.cache.flights[f].closes == if exists p :: Leads(s, p, f) then 0 else 1
  {
    if p :| Leads(s, p, f) {
      assert LeaderOk(s.cache, s.procs[p]);
    } else if IsActive(s.cache, f) {
      var key :| key in s.cache.active && s.cache.active[key] == f;
      assert Led(s, key);
      var q :| q in s.procs && s.procs[q].Leading? && s.procs[q].key == key;
      assert LeaderOk(s.cache, s.procs[q]) && Leads(s, q, f);
    }
  }

  /** A waiter is never stuck: its channel is closed, or a query is scanning that will close it. */
  lemma NoStuckWaiter(upper: Upper, ttl: int, states: seq<Sys>, steps: seq<Step>, i: nat, p: Pid)
    requires IsRun(upper, ttl, states, steps) && i < |states|
    requires p in states[i].procs && states[i].procs[p].Waiting?
    ensures Enabled(states[i], Wake(p)) ||
            exists q :: q in states[i].procs && states[i].procs[q].Leading? &&
                        states[i].procs[q].flight == states[i].procs[p].flight &&
                        states[i].procs[q].key == states[i].procs[p].key
  {
    RunInv(upper, ttl, states, steps, i);
    var s := states[i];
    assert WaiterOk(s.cache, s.procs[p]);
    if s.cache.flights[s.procs[p].flight].closes == 0 {
      assert Led(s, s.procs[p].key);
      var q :| q in s.procs && s.procs[q].Leading? && s.procs[q].key == s.procs[p].key;
      assert LeaderOk(s.cache, s.procs[q]);
    }
  }

  /** The step stores an entry for the key: a successful scan by a query for that key. */
  ghost predicate Stores(ttl: int, s: Sys, step: Step, key: string, e: Entry) {
    && step.FinishScan? && step.pid in s.procs && s.procs[step.pid].Leading? && s.procs[step.pid].key == key
    && step.scanned.Ok? && e == Renewed(step.scanned.value, ttl, s.clock)
  }

  /** An entry changes only when a scan for its key succeeds, and no entry is ever removed. */
  lemma EntriesChangeOnSuccess(upper: Upper, ttl: int, s: Sys, step: Step, key: string)
    requires Enabled(s, step)
    ensures var before, after := Lookup(s.cache, key), Lookup(Next(upper, ttl, s, step).cache, key);
      before == after || (after.Some? && Stores(ttl, s, step, key, after.value))
  {}

  ghost predicate StoredBefore(ttl: int, states: seq<Sys>, steps: seq<Step>, j: nat, key: string, e: Entry)
    requires |states| == |steps| + 1 && j < |states|
  {
    exists i :: 0 <= i < j && Stores(ttl, states[i], steps[i], key, e)
  }

  lemma StoredStays(ttl: int, states: seq<Sys>, steps: seq<Step>, j: nat, key: string, e: Entry)
    requires |states| == |steps| + 1 && j < |steps|
    ensures StoredBefore(ttl, states, steps, j, key, e) || Stores(ttl, states[j], steps[j], key, e) ==>
            StoredBefore(ttl, states, steps, j + 1, key, e)
  {}

  lemma {:induction false} EntriesWereStored(upper: Upper, ttl: int, states: seq<Sys>, steps: seq<Step>, j: nat,
                                             key: string)
    requires IsRun(upper, ttl, states, steps) && j < |states| && key in states[j].cache.entries
    ensures StoredBefore(ttl, states, steps, j, key, states[j].cache.entries[key])
  {
    if j == 0 {
    } else {
      var e := states[j].cache.entries[key];
      EntriesChangeOnSuccess(upper, ttl, states[j - 1], steps[j - 1], key);
      if Lookup(states[j - 1].cache, key) == Some(e) {
        EntriesWereStored(upper, ttl, states, steps, j - 1, key);
      }
      StoredStays(ttl, states, steps, j - 1, key, e);
    }
  }

  /**
    A query is answered without a scan, and without waiting for one, exactly when its entry has not
    expired; that entry is what an earlier scan for its key returned, less than the ttl before the
    query read the clock.
   */
  lemma HitIsYoung(upper: Upper, ttl: int, states: seq<Sys>, steps: seq<Step>, j: nat)
    requires IsRun(upper, ttl, states, steps) && j < |steps| && steps[j].EnterCache?
    ensures var r, t := states[j].procs[steps[j].pid], states[j + 1].procs[steps[j].pid];
      var e := Lookup(states[j].cache, r.key);
      && (t.Answered? <==> e.Some? && r.now < e.value.expiresAt)
      && (t.Answered? ==>
            && t.answer == Ok(WithState(e.value.prices, r.q.names, Fresh))
            && exists i ::
                 0 <= i < j && Stores(ttl, states[i], steps[i], r.key, e.value) && r.now < states[i].clock + ttl)
  {
    var r := states[j].procs[steps[j].pid];
    if r.key in states[j].cache.entries {
      EntriesWereStored(upper, ttl, states, steps, j, r.key);
      var i :| 0 <= i < j && Stores(ttl, states[i], steps[i], r.key, states[j].cache.entries[r.key]);
      assert states[j].cache.entries[r.key].expiresAt == states[i].clock + ttl;
    }
  }

  /**
    A failed scan is answered exactly when the key has an entry that is at most seven times the ttl old
    at the time the query read the clock; the answer is that entry's, marked as stale, with the error added.
   */
  lemma StaleIff(upper: Upper, ttl: int, states: seq<Sys>, steps: seq<Step>, j: nat)
    requires IsRun(upper, ttl, states, steps) && j < |steps| && steps[j].FinishScan? && steps[j].scanned.Err?
    ensures var r, answer := states[j].procs[steps[j].pid], states[j + 1].procs[steps[j].pid].answer;
      var e := Lookup(states[j].cache, r.key);
      && (answer.Ok? <==> e.Some? && r.now < e.value.staleUntil)
      && (answer.Ok? ==>
            && answer.value.items == OrderItems(e.value.prices.items, r.q.names)
            && answer.value.state == Stale
            && answer.value.errors == e.value.prices.errors + ["refresh failed: " + steps[j].scanned.error]
            && exists i ::
                 0 <= i < j && Stores(ttl, states[i], steps[i], r.key, e.value) && r.now < states[i].clock + 7 * ttl)
  {
    RunInv(upper, ttl, states, steps, j);
    var r := states[j].procs[steps[j].pid];
    assert LeaderOk(states[j].cache, r);
    if r.key in states[j].cache.entries {
      EntriesWereStored(upper, ttl, states, steps, j, r.key);
      var i :| 0 <= i < j && Stores(ttl, states[i], steps[i], r.key, states[j].cache.entries[r.key]);
      assert states[j].cache.entries[r.key].staleUntil == states[i].clock + 7 * ttl;
    }
  }

  // ----- transparency -----

  /** The items are what a scan returns for some query with this key. */
  ghost predicate FromScan(m: Market, upper: Upper, key: string, items: seq<Item>) {
    exists q :: Plain(q) && Key(upper, q) == key && Scan(m, upper, q) == Some(items)
  }

  /** The scans of a run are those of the market, when they do not fail. */
  ghost predicate Scans(m: Market, upper: Upper, s: Sys, step: Step)
    requires Enabled(s, step)
  {
    step.FinishScan? && step.scanned.Ok? ==> Scan(m, upper, s.procs[step.pid].q) == Some(step.scanned.value.items)
  }

  ghost predicate ScansPlain(m: Market, upper: Upper, s: Sys, step: Step)
    requires Enabled(s, step)
  {
    Scans(m, upper, s, step) && (step.Begin? ==> Plain(step.q))
  }

  ghost predicate EntryTrue(m: Market, upper: Upper, key: string, e: Option<Entry>) {
    e.Some? ==> FromScan(m, upper, key, e.value.prices.items)
  }

  ghost predicate FlightTrue(m: Market, upper: Upper, c: State, key: string, f: nat) {
    f < |c.flights| && c.flights[f].closes > 0 && c.flights[f].outcome.Ok? ==>
      FromScan(m, upper, key, c.flights[f].outcome.value.items)
  }

  ghost predicate ProcTrue(m: Market, upper: Upper, c: State, r: Proc) {
    match r
    case Begun(q, key, _) => Plain(q) && key == Key(upper, q)
    case Leading(q, key, _, f, stale) => Plain(q) && key == Key(upper, q) && EntryTrue(m, upper, key, stale)
    case Waiting(q, key, _, f) => Plain(q) && key == Key(upper, q) && FlightTrue(m, upper, c, key, f)
    case Answered(q, key, answer) => answer.Ok? ==> Scan(m, upper, q) == Some(answer.value.items)
    case Abandoned => true
  }

  ghost predicate True(m: Market, upper: Upper, s: Sys) {
    && (forall key :: EntryTrue(m, upper, key, Lookup(s.cache, key)))
    && (forall p :: p in s.procs ==> ProcTrue(m, upper, s.cache, s.procs[p]))
  }

  lemma ReorderedIsScanned(m: Market, upper: Upper, q: Query, items: seq<Item>)
    requires PerName(m) && Plain(q) && FromScan(m, upper, Key(upper, q), items)
    ensures Scan(m, upper, q) == Some(OrderItems(items, q.names))
  {
    var p :| Plain(p) && Key(upper, p) == Key(upper, q) && Scan(m, upper, p) == Some(items);
    CachedItemsAreScanned(m, upper, p, q);
  }

  /** A step of one query leaves what the others hold true, if it keeps the outcomes of the closed channels. */
  lemma OthersTrue(m: Market, upper: Upper, s: Sys, t: Sys, p: Pid)
    requires True(m, upper, s) && p in t.procs && t.procs == s.procs[p := t.procs[p]]
    requires forall key, f :: FlightTrue(m, upper, s.cache, key, f) ==> FlightTrue(m, upper, t.cache, key, f)
    ensures forall x :: x in t.procs && x != p ==> ProcTrue(m, upper, t.cache, t.procs[x])
  {}

  lemma EntererTrue(m: Market, upper: Upper, c: State, r: Proc)
    requires PerName(m) && FlightsOk(c) && r.Begun? && ProcTrue(m, upper, c, r)
    requires EntryTrue(m, upper, r.key, Lookup(c, r.key))
    ensures var entered := Enter(c, r.key, r.now, r.q.names);
      var c', e := entered.0, entered.1;
      ProcTrue(m, upper, c', After(r, e))
  {
    if r.key in c.entries {
      ReorderedIsScanned(m, upper, r.q, c.entries[r.key].prices.items);
    }
  }

  lemma EnterFlights(m: Market, upper: Upper, c: State, r: Proc, key: string, f: nat)
    requires r.Begun? && FlightTrue(m, upper, c, key, f)
    ensures FlightTrue(m, upper, Enter(c, r.key, r.now, r.q.names).0, key, f)
  {}

  lemma EnterTrue(m: Market, upper: Upper, ttl: int, s: Sys, p: Pid)
    requires PerName(m) && Inv(s) && True(m, upper, s) && Enabled(s, EnterCache(p))
    ensures True(m, upper, Next(upper, ttl, s, EnterCache(p)))
  {
    var r, t := s.procs[p], Next(upper, ttl, s, EnterCache(p));
    assert ProcTrue(m, upper, s.cache, r);
    EntererTrue(m, upper, s.cache, r);
    forall key, f | FlightTrue(m, upper, s.cache, key, f) ensures FlightTrue(m, upper, t.cache, key, f) {
      EnterFlights(m, upper, s.cache, r, key, f);
    }
    OthersTrue(m, upper, s, t, p);
    forall key ensures EntryTrue(m, upper, key, Lookup(t.cache, key)) {
      assert Lookup(t.cache, key) == Lookup(s.cache, key);
    }
  }

  lemma OutcomeTrue(m: Market, upper: Upper, r: Proc, c: State, scanned: Scanned)
    requires PerName(m) && r.Leading? && ProcTrue(m, upper, c, r)
    requires scanned.Ok? ==> Scan(m, upper, r.q) == Some(scanned.value.items)
    ensures var o := Outcome(r.now, r.stale, scanned);
      o.Ok? ==> FromScan(m, upper, r.key, o.value.items) &&
                Scan(m, upper, r.q) == Some(OwnAnswer(o, r.q.names).value.items)
  {
    var o := Outcome(r.now, r.stale, scanned);
    if o.Ok? {
      assert FromScan(m, upper, r.key, o.value.items);
      ReorderedIsScanned(m, upper, r.q, o.value.items);
    }
  }

  /** The waiters of a finished scan asked for its key. */
  lemma FinishOthers(m: Market, upper: Upper, ttl: int, s: Sys, p: Pid, scanned: Scanned, x: Pid)
    requires Inv(s) && True(m, upper, s) && Enabled(s, FinishScan(p, scanned)) && x in s.procs && x != p
    requires var o := Outcome(s.procs[p].now, s.procs[p].stale, scanned);
      o.Ok? ==> FromScan(m, upper, s.procs[p].key, o.value.items)
    ensures var t := Next(upper, ttl, s, FinishScan(p, scanned)); ProcTrue(m, upper, t.cache, t.procs[x])
  {
    assert ProcTrue(m, upper, s.cache, s.procs[x]);
    assert LeaderOk(s.cache, s.procs[p]);
    if s.procs[x].Waiting? && s.procs[x].flight == s.procs[p].flight {
      assert WaiterOk(s.cache, s.procs[x]) && s.procs[x].key == s.procs[p].key;
    }
  }

  lemma FinishEntries(m: Market, upper: Upper, ttl: int, s: Sys, p: Pid, scanned: Scanned, key: string)
    requires True(m, upper, s) && Enabled(s, FinishScan(p, scanned)) && Scans(m, upper, s, FinishScan(p, scanned))
    ensures EntryTrue(m, upper, key, Lookup(Next(upper, ttl, s, FinishScan(p, scanned)).cache, key))
  {
    assert ProcTrue(m, upper, s.cache, s.procs[p]);
    assert EntryTrue(m, upper, key, Lookup(s.cache, key));
  }

  lemma FinishTrue(m: Market, upper: Upper, ttl: int, s: Sys, p: Pid, scanned: Scanned)
    requires PerName(m) && Inv(s) && True(m, upper, s) && Enabled(s, FinishScan(p, scanned))
    requires Scans(m, upper, s, FinishScan(p, scanned))
    ensures True(m, upper, Next(upper, ttl, s, FinishScan(p, scanned)))
  {
    var t := Next(upper, ttl, s, FinishScan(p, scanned));
    assert ProcTrue(m, upper, s.cache, s.procs[p]);
    OutcomeTrue(m, upper, s.procs[p], s.cache, scanned);
    forall key ensures EntryTrue(m, upper, key, Lookup(t.cache, key)) {
      FinishEntries(m, upper, ttl, s, p, scanned, key);
    }
    forall x | x in t.procs ensures ProcTrue(m, upper, t.cache, t.procs[x]) {
      if x != p {
        FinishOthers(m, upper, ttl, s, p, scanned, x);
      }
    }
  }

  lemma WakeTrue(m: Market, upper: Upper, ttl: int, s: Sys, p: Pid)
    requires PerName(m) && True(m, upper, s) && Enabled(s, Wake(p))
    ensures True(m, upper, Next(upper, ttl, s, Wake(p)))
  {
    var r, t := s.procs[p], Next(upper, ttl, s, Wake(p));
    assert ProcTrue(m, upper, s.cache, r);
    if s.cache.flights[r.flight].outcome.Ok? {
      ReorderedIsScanned(m, upper, r.q, s.cache.flights[r.flight].outcome.value.items);
    }
    assert t.cache == s.cache;
    OthersTrue(m, upper, s, t, p);
  }

  lemma {:induction false} RunTrue(m: Market, upper: Upper, ttl: int, states: seq<Sys>, steps: seq<Step>, i: nat)
    requires PerName(m) && IsRun(upper, ttl, states, steps) && i < |states|
    requires forall j :: 0 <= j < |steps| ==> ScansPlain(m, upper, states[j], steps[j])
    ensures True(m, upper, states[i])
  {
    if i == 0 {
    } else {
      RunTrue(m, upper, ttl, states, steps, i - 1);
      RunInv(upper, ttl, states, steps, i - 1);
      assert ScansPlain(m, upper, states[i - 1], steps[i - 1]);
      match steps[i - 1]
      case EnterCache(p) => EnterTrue(m, upper, ttl, states[i - 1], p);
      case FinishScan(p, scanned) => FinishTrue(m, upper, ttl, states[i - 1], p, scanned);
      case Wake(p) => WakeTrue(m, upper, ttl, states[i - 1], p);
      case _ => OtherTrue(m, upper, ttl, states[i - 1], steps[i - 1]);
    }
  }

  lemma OtherTrue(m: Market, upper: Upper, ttl: int, s: Sys, step: Step)
    requires True(m, upper, s) && Enabled(s, step) && ScansPlain(m, upper, s, step)
    requires step.Tick? || step.Begin? || step.GiveUp?
    ensures True(m, upper, Next(upper, ttl, s, step))
  {}

  /**
    The cache is transparent over every run: if what the market quotes for a name depends on nothing
    but the currency and the app, then every answer, fresh, stale or shared, lists exactly the items
    that a scan of that very query returns.
   */
  lemma AnswersAreScans(m: Market, upper: Upper, ttl: int, states: seq<Sys>, steps: seq<Step>, i: nat, p: Pid)
    requires PerName(m) && IsRun(upper, ttl, states, steps) && i < |states|
    requires forall j :: 0 <= j < |steps| ==> ScansPlain(m, upper, states[j], steps[j])
    requires p in states[i].procs && states[i].procs[p].Answered? && states[i].procs[p].answer.Ok?
    ensures Scan(m, upper, states[i].procs[p].q) == Some(states[i].procs[p].answer.value.items)
  {
    RunTrue(m, upper, ttl, states, steps, i);
    assert ProcTrue(m, upper, states[i].cache, states[i].procs[p]);
  }
}
