/**
  What the queries to one price cache are answered with, over every interleaving: as they enter, as the
  scans they lead end, and as they wake up from waiting for another query's scan.
 */
module PriceCacheAnswers {
  import opened Prelude
  import opened PriceQueries
  import opened PriceCaches
  import opened PriceCacheRuns

  lemma RunStep(upper: Upper, ttl: int, states: seq<Sys>, steps: seq<Step>, j: nat)
    requires IsRun(upper, ttl, states, steps) && j < |steps|
    ensures Enabled(states[j], steps[j]) && states[j + 1] == Next(upper, ttl, states[j], steps[j])
  {}

  // ----- what is stored -----

  /** The i-th step is a successful scan for the key, the last one before the j-th. */
  ghost predicate LastScan(states: seq<Sys>, steps: seq<Step>, j: nat, key: string, i: nat)
    requires |states| == |steps| + 1 && j <= |steps|
  {
    i < j && ScannedAt(states, steps, i, key) && NoneScanned(states, steps, i + 1, j, key)
  }

  ghost predicate NoneScanned(states: seq<Sys>, steps: seq<Step>, i: nat, j: nat, key: string)
    requires |states| == |steps| + 1 && j <= |steps|
  {
    forall k :: i <= k < j ==> !ScannedAt(states, steps, k, key)
  }

  predicate ScannedAt(states: seq<Sys>, steps: seq<Step>, k: nat, key: string)
    requires |states| == |steps| + 1 && k < |steps|
  {
    Scanned(states[k], steps[k], key)
  }

  lemma NoneScannedNow(states: seq<Sys>, steps: seq<Step>, i: nat, j: nat, key: string)
    requires |states| == |steps| + 1 && i <= j < |steps|
    ensures NoneScanned(states, steps, i, j + 1, key) <==>
            NoneScanned(states, steps, i, j, key) && !ScannedAt(states, steps, j, key)
  {}

  predicate Scanned(s: Sys, step: Step, key: string) {
    step.FinishScan? && step.scanned.Ok? && step.pid in s.procs && s.procs[step.pid].Leading? &&
    s.procs[step.pid].key == key
  }

  lemma StoreStep(upper: Upper, ttl: int, s: Sys, step: Step, key: string)
    requires Enabled(s, step)
    ensures var before, after := s.cache.entries, Next(upper, ttl, s, step).cache.entries;
      if Scanned(s, step, key) then
        key in after && after[key] == Entry(step.scanned.value, s.clock + ttl, s.clock + 7 * ttl)
      else (key in after <==> key in before) && (key in after ==> after[key] == before[key])
  {}

  lemma RunStore(upper: Upper, ttl: int, states: seq<Sys>, steps: seq<Step>, j: nat, key: string)
    requires IsRun(upper, ttl, states, steps) && j < |steps|
    ensures var s, before, after := states[j], states[j].cache.entries, states[j + 1].cache.entries;
      if ScannedAt(states, steps, j, key) then
        key in after && after[key] == Entry(steps[j].scanned.value, s.clock + ttl, s.clock + 7 * ttl)
      else (key in after <==> key in before) && (key in after ==> after[key] == before[key])
  {
    RunStep(upper, ttl, states, steps, j);
    StoreStep(upper, ttl, states[j], steps[j], key);
  }

  lemma {:induction false} FindLastScan(states: seq<Sys>, steps: seq<Step>, j: nat, key: string)
    returns (last: Option<nat>)
    requires |states| == |steps| + 1 && j <= |steps|
    ensures if last.Some? then LastScan(states, steps, j, key, last.value) else NoneScanned(states, steps, 0, j, key)
  {
    if j == 0 {
      last := None;
    } else if ScannedAt(states, steps, j - 1, key) {
      last := Some(j - 1);
    } else {
      last := FindLastScan(states, steps, j - 1, key);
      NoneScannedNow(states, steps, if last.Some? then last.value + 1 else 0, j - 1, key);
    }
  }

  lemma {:induction false} EntryIsKept(upper: Upper, ttl: int, states: seq<Sys>, steps: seq<Step>, i: nat, j: nat,
                                       key: string)
    requires IsRun(upper, ttl, states, steps) && i <= j < |states| && NoneScanned(states, steps, i, j, key)
    ensures Lookup(states[j].cache, key) == Lookup(states[i].cache, key)
    decreases j
  {
    if i == j {
    } else {
      NoneScannedNow(states, steps, i, j - 1, key);
      EntryIsKept(upper, ttl, states, steps, i, j - 1, key);
      RunStore(upper, ttl, states, steps, j - 1, key);
    }
  }

  /** A key has an entry exactly if a scan for it has succeeded, and then it is what the last such scan stored. */
  lemma EntryIsLastScan(upper: Upper, ttl: int, states: seq<Sys>, steps: seq<Step>, j: nat, key: string)
    returns (last: Option<nat>)
    requires IsRun(upper, ttl, states, steps) && j < |states|
    ensures if last.Some? then LastScan(states, steps, j, key, last.value) else NoneScanned(states, steps, 0, j, key)
    ensures key in states[j].cache.entries <==> last.Some?
    ensures last.Some? ==>
      var s := states[last.value];
      states[j].cache.entries[key] == Entry(steps[last.value].scanned.value, s.clock + ttl, s.clock + 7 * ttl)
  {
    last := FindLastScan(states, steps, j, key);
    if last.Some? {
      RunStore(upper, ttl, states, steps, last.value, key);
      EntryIsKept(upper, ttl, states, steps, last.value + 1, j, key);
    } else {
      EntryIsKept(upper, ttl, states, steps, 0, j, key);
    }
  }

  // ----- entering -----

  /**
    A query is answered at once exactly if the last successful scan for its key ended less than the ttl
    before the query read the clock, with what that scan returned, in its own order and marked as
    fresh.  Otherwise it waits for the query that is scanning for its key, if there is one, and else scans.
   */
  lemma EnterIs(upper: Upper, ttl: int, states: seq<Sys>, steps: seq<Step>, j: nat, p: Pid)
    returns (last: Option<nat>)
    requires IsRun(upper, ttl, states, steps) && j < |steps| && steps[j] == EnterCache(p)
    ensures var r, t := states[j].procs[p], states[j + 1].procs[p];
      && (if last.Some? then LastScan(states, steps, j, r.key, last.value)
          else NoneScanned(states, steps, 0, j, r.key))
      && if last.Some? && r.now < states[last.value].clock + ttl then
           var x := steps[last.value].scanned.value;
           t == Answered(r.q, r.key, Ok(Prices(OrderItems(x.items, r.q.names), x.errors, Fresh)))
         else if exists o :: o in states[j].procs && states[j].procs[o].Leading? && states[j].procs[o].key == r.key then
           exists o :: o in states[j].procs && states[j].procs[o].Leading? && states[j].procs[o].key == r.key &&
                       t == Waiting(r.q, r.key, r.now, states[j].procs[o].flight)
         else t.Leading? && t.q == r.q && t.key == r.key && t.now == r.now
  {
    var s := states[j];
    var r := s.procs[p];
    last := EntryIsLastScan(upper, ttl, states, steps, j, r.key);
    RunInv(upper, ttl, states, steps, j);
    RunStep(upper, ttl, states, steps, j);
    if o :| o in s.procs && s.procs[o].Leading? && s.procs[o].key == r.key {
      assert LeaderOk(s.cache, s.procs[o]);
    } else {
      assert !Led(s, r.key);
    }
  }

  // ----- the end of a scan -----

  /**
    What a query for some names gets from the scan that `r` leads: what the scan returned, in the query's
    order and marked as fresh; if it failed, the key's entry, marked as stale and with the error added,
    if the entry's limit has not passed; and else exactly the scan's error.
   */
  function AnswerTo(s: Sys, r: Proc, x: Scanned, names: seq<string>): Scanned
    requires r.Leading?
  {
    match x
    case Ok(prices) => Ok(Prices(OrderItems(prices.items, names), prices.errors, Fresh))
    case Err(e) =>
      if r.key in s.cache.entries && r.now < s.cache.entries[r.key].staleUntil then
        var p := s.cache.entries[r.key].prices;
        Ok(Prices(OrderItems(p.items, names), p.errors + ["refresh failed: " + e], Stale))
      else Err(e)
  }

  /** The query that scans is answered with that. */
  lemma ScanIsAnswered(upper: Upper, ttl: int, states: seq<Sys>, steps: seq<Step>, j: nat, p: Pid, x: Scanned)
    requires IsRun(upper, ttl, states, steps) && j < |steps| && steps[j] == FinishScan(p, x)
    ensures var r := states[j].procs[p];
      r.Leading? && states[j + 1].procs[p] == Answered(r.q, r.key, AnswerTo(states[j], r, x, r.q.names))
  {
    RunInv(upper, ttl, states, steps, j);
    RunStep(upper, ttl, states, steps, j);
    assert LeaderOk(states[j].cache, states[j].procs[p]);
  }

  // ----- waiting -----

  /** The step ends the scan that `w` waits for. */
  predicate Ends(s: Sys, step: Step, w: Proc)
    requires Enabled(s, step) && w.Waiting?
  {
    step.FinishScan? && s.procs[step.pid].flight == w.flight && s.procs[step.pid].key == w.key
  }

  predicate Closed(s: Sys, w: Proc)
    requires w.Waiting?
  {
    w.flight < |s.cache.flights| && s.cache.flights[w.flight].closes > 0
  }

  lemma ReleaseStep(upper: Upper, ttl: int, s: Sys, step: Step, p: Pid)
    requires Inv(s) && Enabled(s, step)
    requires var t := Next(upper, ttl, s, step); p in t.procs && t.procs[p].Waiting? && Closed(t, t.procs[p])
    ensures p in s.procs && s.procs[p] == Next(upper, ttl, s, step).procs[p]
    ensures var w := s.procs[p];
      || Ends(s, step, w)
      || (Closed(s, w) && Next(upper, ttl, s, step).cache.flights[w.flight] == s.cache.flights[w.flight])
  {
    var t := Next(upper, ttl, s, step);
    if step.FinishScan? {
      assert LeaderOk(s.cache, s.procs[step.pid]);
      assert WaiterOk(s.cache, s.procs[p]);
    }
  }

  /** A waiter whose channel is closed has waited since before its scan ended, and its flight has what that left. */
  lemma {:induction false} Released(upper: Upper, ttl: int, states: seq<Sys>, steps: seq<Step>, j: nat, p: Pid)
    returns (i: nat)
    requires IsRun(upper, ttl, states, steps) && j < |states| && p in states[j].procs
    requires states[j].procs[p].Waiting? && Closed(states[j], states[j].procs[p])
    ensures i < j && Ends(states[i], steps[i], states[j].procs[p])
    ensures var f := states[j].procs[p].flight;
      f < |states[i + 1].cache.flights| && states[i + 1].cache.flights[f] == states[j].cache.flights[f]
  {
    if j > 0 {
      RunInv(upper, ttl, states, steps, j - 1);
      RunStep(upper, ttl, states, steps, j - 1);
      ReleaseStep(upper, ttl, states[j - 1], steps[j - 1], p);
      if Ends(states[j - 1], steps[j - 1], states[j].procs[p]) {
        i := j - 1;
      } else {
        i := Released(upper, ttl, states, steps, j - 1, p);
      }
    } else {
      assert false;
    }
  }

  lemma WokenWith(upper: Upper, ttl: int, s: Sys, step: Step, w: Proc)
    requires Inv(s) && Enabled(s, step) && w.Waiting? && Ends(s, step, w)
    ensures var r, t := s.procs[step.pid], Next(upper, ttl, s, step);
      WaiterAnswer(t.cache.flights[w.flight].outcome, w.q.names) == AnswerTo(s, r, step.scanned, w.q.names)
  {
    assert LeaderOk(s.cache, s.procs[step.pid]);
  }

  /**
    Whoever wakes up waited for a scan of its key that has ended, and is answered as the query that led
    the scan was: with the same error, or the same items in its own order, errors and mark.
   */
  lemma WaiterIsAnswered(upper: Upper, ttl: int, states: seq<Sys>, steps: seq<Step>, j: nat, p: Pid) returns (i: nat)
    requires IsRun(upper, ttl, states, steps) && j < |steps| && steps[j] == Wake(p)
    ensures i < j && states[j].procs[p].Waiting? && Ends(states[i], steps[i], states[j].procs[p])
    ensures var r, w, x := states[i].procs[steps[i].pid], states[j].procs[p], steps[i].scanned;
      && states[i + 1].procs[steps[i].pid] == Answered(r.q, r.key, AnswerTo(states[i], r, x, r.q.names))
      && states[j + 1].procs[p] == Answered(w.q, w.key, AnswerTo(states[i], r, x, w.q.names))
  {
    RunStep(upper, ttl, states, steps, j);
    i := Released(upper, ttl, states, steps, j, p);
    RunInv(upper, ttl, states, steps, i);
    RunStep(upper, ttl, states, steps, i);
    ScanIsAnswered(upper, ttl, states, steps, i, steps[i].pid, steps[i].scanned);
    WokenWith(upper, ttl, states[i], steps[i], states[j].procs[p]);
  }
}
