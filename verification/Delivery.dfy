/** How completed rows and one-shot callbacks are interleaved when they are sent to the application. */
module Delivery {

  /** A one-shot callback, due once the row of its trigger index is complete. */
  datatype Synced = Synced(trigger: nat, id: int)

  datatype Event<T> = RowReady(row: T) | Fired(id: int)

  function Fire<T>(cbs: seq<Synced>): seq<Event<T>> {
    seq(|cbs|, i requires 0 <= i < |cbs| => Fired(cbs[i].id))
  }

  /** How many callbacks at the front of the list are due once row n is complete. */
  function Ready(pending: seq<Synced>, n: int): (k: nat)
    ensures k <= |pending|
    ensures forall i :: 0 <= i < k ==> pending[i].trigger <= n
    ensures k < |pending| ==> pending[k].trigger > n
  {
    if pending == [] || pending[0].trigger > n then 0 else 1 + Ready(pending[1..], n)
  }

  /** Every callback registered since the last reset, those still waiting, and everything sent. */
  datatype Outbox<T> = Outbox(registered: seq<Synced>, pending: seq<Synced>, log: seq<Event<T>>) {

    function Register(cb: Synced): Outbox<T> {
      Outbox(registered + [cb], pending + [cb], log)
    }

    /** A run completes row n: its callbacks go first. */
    function Complete(n: int, row: T): Outbox<T> {
      var k := Ready(pending, n);
      Outbox(registered, pending[k..], (log + Fire(pending[..k])) + [RowReady(row)])
    }

    /** Row n is flushed: its callbacks follow. */
    function Flush(n: int, row: T): Outbox<T> {
      var k := Ready(pending, n);
      Outbox(registered, pending[k..], (log + [RowReady(row)]) + Fire(pending[..k]))
    }

    /** A reset fires whatever is left. */
    function Reset(): Outbox<T> {
      Outbox([], [], log + Fire(pending))
    }
  }

  // ----- Callback lists -----

  /** In registration order triggers never decrease, because the run counter does not. */
  ghost predicate Sorted(cbs: seq<Synced>, max: nat) {
    cbs == [] || (cbs[0].trigger <= (if |cbs| > 1 then cbs[1].trigger else max) && Sorted(cbs[1..], max))
  }

  /** The callbacks with exactly this trigger. */
  ghost function At(cbs: seq<Synced>, n: nat): seq<Synced> {
    if cbs == [] then [] else if cbs[0].trigger == n then [cbs[0]] + At(cbs[1..], n) else At(cbs[1..], n)
  }

  /** The callbacks with this trigger or a later one. */
  ghost function From(cbs: seq<Synced>, n: nat): seq<Synced> {
    if cbs == [] then [] else if cbs[0].trigger >= n then [cbs[0]] + From(cbs[1..], n) else From(cbs[1..], n)
  }

  lemma {:induction false} AllLater(cbs: seq<Synced>, n: nat, max: nat)
    requires Sorted(cbs, max) && (cbs == [] || n < cbs[0].trigger)
    ensures At(cbs, n) == [] && From(cbs, n) == cbs && From(cbs, n + 1) == cbs
  {
    if cbs != [] {
      AllLater(cbs[1..], n, max);
    }
  }

  lemma {:induction false} FromSplits(cbs: seq<Synced>, n: nat, max: nat)
    requires Sorted(cbs, max)
    ensures From(cbs, n) == At(cbs, n) + From(cbs, n + 1)
  {
    if cbs != [] {
      if cbs[0].trigger > n {
        AllLater(cbs, n, max);
      } else {
        FromSplits(cbs[1..], n, max);
      }
    }
  }

  /** Stopping at the first callback that is not due finds all that are, because triggers are sorted. */
  lemma {:induction false} ReadyCountsAt(cbs: seq<Synced>, n: nat, max: nat)
    requires Sorted(cbs, max)
    ensures Ready(From(cbs, n), n) == |At(cbs, n)|
  {
    if cbs != [] {
      if cbs[0].trigger > n {
        AllLater(cbs, n, max);
      } else {
        ReadyCountsAt(cbs[1..], n, max);
        if cbs[0].trigger == n {
          assert From(cbs, n)[1..] == From(cbs[1..], n);
        }
      }
    }
  }

  lemma FrontIsAt(cbs: seq<Synced>, n: nat, max: nat)
    requires Sorted(cbs, max)
    ensures
      var k := Ready(From(cbs, n), n);
      From(cbs, n)[..k] == At(cbs, n) && From(cbs, n)[k..] == From(cbs, n + 1)
  {
    FromSplits(cbs, n, max);
    ReadyCountsAt(cbs, n, max);
  }

  lemma {:induction false} FromZero(cbs: seq<Synced>)
    ensures From(cbs, 0) == cbs
  {
    if cbs != [] {
      FromZero(cbs[1..]);
    }
  }

  lemma {:induction false} FromPastEnd(cbs: seq<Synced>, max: nat)
    requires Sorted(cbs, max)
    ensures From(cbs, max + 1) == []
    ensures cbs == [] || cbs[0].trigger <= max
  {
    if cbs != [] {
      FromPastEnd(cbs[1..], max);
    }
  }

  lemma LastAreAt(cbs: seq<Synced>, max: nat)
    requires Sorted(cbs, max)
    ensures From(cbs, max) == At(cbs, max)
  {
    FromSplits(cbs, max, max);
    FromPastEnd(cbs, max);
  }

  lemma {:induction false} SortedGrows(cbs: seq<Synced>, max: nat, max': nat)
    requires Sorted(cbs, max) && max <= max'
    ensures Sorted(cbs, max')
  {
    if cbs != [] {
      SortedGrows(cbs[1..], max, max');
    }
  }

  lemma {:induction false} SortedAppend(cbs: seq<Synced>, cb: Synced)
    requires Sorted(cbs, cb.trigger)
    ensures Sorted(cbs + [cb], cb.trigger)
  {
    if cbs == [] {
      assert cbs + [cb] == [cb];
    } else {
      SortedAppend(cbs[1..], cb);
      assert (cbs + [cb])[1..] == cbs[1..] + [cb];
    }
  }

  lemma {:induction false} AppendCallback(cbs: seq<Synced>, cb: Synced, n: nat)
    ensures From(cbs + [cb], n) == From(cbs, n) + (if cb.trigger >= n then [cb] else [])
    ensures At(cbs + [cb], n) == At(cbs, n) + (if cb.trigger == n then [cb] else [])
  {
    if cbs == [] {
      assert cbs + [cb] == [cb];
    } else {
      AppendCallback(cbs[1..], cb, n);
      assert (cbs + [cb])[1..] == cbs[1..] + [cb];
    }
  }

  // ----- The log of an epoch -----

  /** What is sent about index n: its row and the callbacks registered at n, which go first iff a run completed the row. */
  ghost function EventsAt<T>(row: T, n: nat, completed: bool, cbs: seq<Synced>): seq<Event<T>> {
    if completed then Fire(At(cbs, n)) + [RowReady(row)] else [RowReady(row)] + Fire(At(cbs, n))
  }

  /** What is sent about the indices of these rows, when runs complete the first `completed` of them. */
  ghost function EventsFor<T>(rows: seq<T>, completed: int, cbs: seq<Synced>): seq<Event<T>> {
    if rows == [] then []
    else
      var n := |rows| - 1;
      EventsFor(rows[..n], completed, cbs) + EventsAt(rows[n], n, n < completed, cbs)
  }

  /** Everything an epoch sends: its indices in order, then the callbacks registered after the last run. */
  ghost function EpochLog<T>(rows: seq<T>, completed: int, cbs: seq<Synced>): seq<Event<T>> {
    EventsFor(rows, completed, cbs) + Fire(At(cbs, |rows|))
  }

  /** The log is the final one up to the rows sent so far, and exactly the later callbacks are waiting. */
  ghost predicate Tracks<T>(out: Outbox<T>, rows: seq<T>, completed: int, now: nat, log: seq<Event<T>>) {
    && |rows| <= now
    && Sorted(out.registered, now)
    && out.pending == From(out.registered, |rows|)
    && out.log == log + EventsFor(rows, completed, out.registered)
  }

  lemma Assoc<T>(a: seq<T>, b: seq<T>, c: seq<T>)
    ensures (a + b) + c == a + (b + c)
  {
  }

  lemma ExtendLog<T>(log: seq<Event<T>>, rows: seq<T>, row: T, completed: int, cbs: seq<Synced>)
    ensures log + EventsFor(rows + [row], completed, cbs)
         == (log + EventsFor(rows, completed, cbs)) + EventsAt(row, |rows|, |rows| < completed, cbs)
  {
    EventsForStep(rows, row, completed, cbs);
    Assoc(log, EventsFor(rows, completed, cbs), EventsAt(row, |rows|, |rows| < completed, cbs));
  }

  lemma CompleteTracks<T>(out: Outbox<T>, rows: seq<T>, row: T, completed: int, now: nat, log: seq<Event<T>>)
    requires Tracks(out, rows, completed, now, log) && |rows| < completed && |rows| < now
    ensures Tracks(out.Complete(|rows|, row), rows + [row], completed, now, log)
  {
    var n := |rows|;
    FrontIsAt(out.registered, n, now);
    ExtendLog(log, rows, row, completed, out.registered);
    Assoc(out.log, Fire(At(out.registered, n)), [RowReady(row)]);
  }

  lemma FlushTracks<T>(out: Outbox<T>, rows: seq<T>, row: T, completed: int, now: nat, log: seq<Event<T>>)
    requires Tracks(out, rows, completed, now, log) && completed <= |rows| < now
    ensures Tracks(out.Flush(|rows|, row), rows + [row], completed, now, log)
  {
    var n := |rows|;
    FrontIsAt(out.registered, n, now);
    ExtendLog(log, rows, row, completed, out.registered);
    Assoc(out.log, [RowReady(row)], Fire(At(out.registered, n)));
  }

  lemma {:induction false} EventsIgnoreLater<T>(rows: seq<T>, completed: int, cbs: seq<Synced>, cb: Synced)
    requires |rows| <= cb.trigger
    ensures EventsFor(rows, completed, cbs + [cb]) == EventsFor(rows, completed, cbs)
  {
    if rows != [] {
      var n := |rows| - 1;
      EventsIgnoreLater(rows[..n], completed, cbs, cb);
      assert At(cbs + [cb], n) == At(cbs, n) by {
        AppendCallback(cbs, cb, n);
        assert At(cbs, n) + [] == At(cbs, n);
      }
    }
  }

  lemma RegisterTracks<T>(out: Outbox<T>, rows: seq<T>, completed: int, now: nat, id: int, log: seq<Event<T>>)
    requires Tracks(out, rows, completed, now, log)
    ensures Tracks(out.Register(Synced(now, id)), rows, completed, now, log)
  {
    var cb := Synced(now, id);
    SortedAppend(out.registered, cb);
    AppendCallback(out.registered, cb, |rows|);
    EventsIgnoreLater(rows, completed, out.registered, cb);
  }

  /** Which rows count as completed by runs does not matter beyond the rows there are. */
  lemma {:induction false} EventsCompleted<T>(rows: seq<T>, a: int, b: int, cbs: seq<Synced>)
    requires |rows| <= a && |rows| <= b
    ensures EventsFor(rows, a, cbs) == EventsFor(rows, b, cbs)
  {
    if rows != [] {
      EventsCompleted(rows[..|rows| - 1], a, b, cbs);
    }
  }

  lemma TracksOn<T>(out: Outbox<T>, rows: seq<T>, a: int, b: int, now: nat, now': nat, log: seq<Event<T>>)
    requires Tracks(out, rows, a, now, log) && |rows| <= a && |rows| <= b && now <= now'
    ensures Tracks(out, rows, b, now', log)
  {
    EventsCompleted(rows, a, b, out.registered);
    SortedGrows(out.registered, now, now');
  }

  lemma ResetTracks<T>(out: Outbox<T>, rows: seq<T>, completed: int, log: seq<Event<T>>)
    requires Tracks(out, rows, completed, |rows|, log)
    ensures out.Reset() == Outbox([], [], log + EpochLog(rows, completed, out.registered))
  {
    LastAreAt(out.registered, |rows|);
    Assoc(log, EventsFor(rows, completed, out.registered), Fire(At(out.registered, |rows|)));
  }

  // ----- Reading the log -----

  function Rows<T>(log: seq<Event<T>>): seq<T> {
    if log == [] then [] else Rows(log[..|log| - 1]) + (if log[|log| - 1].RowReady? then [log[|log| - 1].row] else [])
  }

  function Ids<T>(log: seq<Event<T>>): seq<int> {
    if log == [] then [] else Ids(log[..|log| - 1]) + (if log[|log| - 1].Fired? then [log[|log| - 1].id] else [])
  }

  function IdsOf(cbs: seq<Synced>): seq<int> {
    seq(|cbs|, i requires 0 <= i < |cbs| => cbs[i].id)
  }

  lemma {:induction false} ReadAppend<T>(a: seq<Event<T>>, b: seq<Event<T>>)
    ensures Rows(a + b) == Rows(a) + Rows(b) && Ids(a + b) == Ids(a) + Ids(b)
  {
    if b == [] {
      assert a + b == a;
    } else {
      ReadAppend(a, b[..|b| - 1]);
      assert (a + b)[..|a + b| - 1] == a + b[..|b| - 1];
    }
  }

  lemma {:induction false} ReadFire<T>(cbs: seq<Synced>)
    ensures Rows<T>(Fire(cbs)) == [] && Ids<T>(Fire(cbs)) == IdsOf(cbs)
  {
    if cbs != [] {
      var init := cbs[..|cbs| - 1];
      ReadFire<T>(init);
      assert Fire<T>(cbs)[..|cbs| - 1] == Fire<T>(init);
      assert IdsOf(cbs) == IdsOf(init) + [cbs[|cbs| - 1].id];
    }
  }

  lemma ReadRow<T>(row: T)
    ensures Rows([RowReady(row)]) == [row] && Ids([RowReady(row)]) == []
  {
    assert [RowReady(row)][..0] == [];
  }

  lemma ReadEventsAt<T>(row: T, n: nat, completed: bool, cbs: seq<Synced>)
    ensures Rows(EventsAt(row, n, completed, cbs)) == [row]
    ensures Ids(EventsAt(row, n, completed, cbs)) == IdsOf(At(cbs, n))
  {
    ReadRow(row);
    ReadFire<T>(At(cbs, n));
    ReadAppend([RowReady(row)], Fire(At(cbs, n)));
    ReadAppend(Fire(At(cbs, n)), [RowReady(row)]);
  }

  lemma {:induction false} ReadRows<T>(rows: seq<T>, completed: int, cbs: seq<Synced>)
    ensures Rows(EventsFor(rows, completed, cbs)) == rows
  {
    if rows == [] {
      assert EventsFor(rows, completed, cbs) == [];
    } else {
      var init, last := rows[..|rows| - 1], rows[|rows| - 1];
      assert Rows(EventsFor(init, completed, cbs)) == init by { ReadRows(init, completed, cbs); }
      assert init + [last] == rows;
      assert Rows(EventsFor(init + [last], completed, cbs)) == init + [last] by { RowsStep(init, last, completed, cbs); }
    }
  }

  lemma RowsStep<T>(rows: seq<T>, row: T, completed: int, cbs: seq<Synced>)
    requires Rows(EventsFor(rows, completed, cbs)) == rows
    ensures Rows(EventsFor(rows + [row], completed, cbs)) == rows + [row]
  {
    var n := |rows|;
    EventsForStep(rows, row, completed, cbs);
    ReadEventsAt(row, n, n < completed, cbs);
    RowsMove(EventsFor(rows, completed, cbs), EventsAt(row, n, n < completed, cbs), rows, row);
  }

  lemma EventsForStep<T>(rows: seq<T>, row: T, completed: int, cbs: seq<Synced>)
    ensures EventsFor(rows + [row], completed, cbs) == EventsFor(rows, completed, cbs) + EventsAt(row, |rows|, |rows| < completed, cbs)
  {
    assert (rows + [row])[..|rows|] == rows;
  }

  lemma RowsMove<T>(before: seq<Event<T>>, now: seq<Event<T>>, rows: seq<T>, row: T)
    requires Rows(before) == rows && Rows(now) == [row]
    ensures Rows(before + now) == rows + [row]
  {
    ReadAppend(before, now);
  }

  lemma IdsOfSplit(cbs: seq<Synced>, n: nat, max: nat)
    requires Sorted(cbs, max)
    ensures IdsOf(From(cbs, n)) == IdsOf(At(cbs, n)) + IdsOf(From(cbs, n + 1))
  {
    FromSplits(cbs, n, max);
  }

  lemma IdsMove<T>(before: seq<Event<T>>, now: seq<Event<T>>, later: seq<int>, all: seq<int>)
    requires Ids(before) + (Ids(now) + later) == all
    ensures Ids(before + now) + later == all
  {
    ReadAppend(before, now);
    Assoc(Ids(before), Ids(now), later);
  }

  lemma {:induction false} ReadIds<T>(rows: seq<T>, completed: int, cbs: seq<Synced>, max: nat)
    requires Sorted(cbs, max)
    ensures Ids(EventsFor(rows, completed, cbs)) + IdsOf(From(cbs, |rows|)) == IdsOf(cbs)
  {
    if rows == [] {
      assert EventsFor(rows, completed, cbs) == [];
      FromZero(cbs);
      assert [] + IdsOf(cbs) == IdsOf(cbs);
    } else {
      var init, last := rows[..|rows| - 1], rows[|rows| - 1];
      assert Ids(EventsFor(init, completed, cbs)) + IdsOf(From(cbs, |init|)) == IdsOf(cbs) by { ReadIds(init, completed, cbs, max); }
      assert init + [last] == rows;
      assert Ids(EventsFor(init + [last], completed, cbs)) + IdsOf(From(cbs, |init| + 1)) == IdsOf(cbs) by {
        IdsStep(init, last, completed, cbs, max);
      }
    }
  }

  lemma IdsStep<T>(rows: seq<T>, row: T, completed: int, cbs: seq<Synced>, max: nat)
    requires Sorted(cbs, max)
    requires Ids(EventsFor(rows, completed, cbs)) + IdsOf(From(cbs, |rows|)) == IdsOf(cbs)
    ensures Ids(EventsFor(rows + [row], completed, cbs)) + IdsOf(From(cbs, |rows| + 1)) == IdsOf(cbs)
  {
    var n := |rows|;
    EventsForStep(rows, row, completed, cbs);
    ReadEventsAt(row, n, n < completed, cbs);
    IdsOfSplit(cbs, n, max);
    IdsMove(EventsFor(rows, completed, cbs), EventsAt(row, n, n < completed, cbs), IdsOf(From(cbs, n + 1)), IdsOf(cbs));
  }

  /** An epoch's log has every row once in order, and every callback once in registration order. */
  lemma EpochLogContents<T>(rows: seq<T>, completed: int, cbs: seq<Synced>)
    requires Sorted(cbs, |rows|)
    ensures Rows(EpochLog(rows, completed, cbs)) == rows
    ensures Ids(EpochLog(rows, completed, cbs)) == IdsOf(cbs)
  {
    var last: seq<Event<T>> := Fire(At(cbs, |rows|));
    ReadFire<T>(At(cbs, |rows|));
    ReadRows(rows, completed, cbs);
    ReadIds(rows, completed, cbs, |rows|);
    ReadAppend(EventsFor(rows, completed, cbs), last);
    LastAreAt(cbs, |rows|);
  }
}
