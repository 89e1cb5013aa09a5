/**
 Histories of one timer set: any sequence of add, cancel, refresh, reset and
 listExpiredCb calls, at any clock readings.
 */
module TimerHistory {
  import opened Wrappers
  import opened TimerOrder

  datatype Op =
    | Add(entry: Entry)
    | Cancel(addr: nat)
    | Refresh(addr: nat, now: nat)
    | Reset(addr: nat, ms: nat, fromNow: bool, now: nat)
    | List(now: nat)

  /** The callback of `entry` is delivered by a call at clock reading `at`. */
  datatype Firing = Firing(at: nat, entry: Entry)

  /** A timer set: strictly sorted, no timer twice, and `next - ms` never underflows. */
  ghost predicate TimerSet(es: seq<Entry>) {
    Sorted(es) && OneEach(es) && forall e :: e in es ==> e.next >= e.ms
  }

  /** The timer `e`, taken out of the set and put back with another key. */
  function Rescheduled(es: seq<Entry>, e: Entry, ms: nat, next: int): seq<Entry> {
    Insert(Remove(es, e.addr), e.(ms := ms, next := next))
  }

  function Refreshed(es: seq<Entry>, addr: nat, now: nat): seq<Entry> {
    match Lookup(es, addr)
    case None => es
    case Some(e) => Rescheduled(es, e, e.ms, now + e.ms)
  }

  function ResetTo(es: seq<Entry>, addr: nat, ms: nat, fromNow: bool, now: nat): seq<Entry> {
    match Lookup(es, addr)
    case None => es
    case Some(e) =>
      if ms == e.ms && !fromNow then es
      else Rescheduled(es, e, ms, (if fromNow then now else e.next - e.ms) + ms)
  }

  /** The set after one call. */
  function After(es: seq<Entry>, op: Op): seq<Entry> {
    match op
    case Add(e) => Insert(es, e)
    case Cancel(addr) => Remove(es, addr)
    case Refresh(addr, now) => Refreshed(es, addr, now)
    case Reset(addr, ms, fromNow, now) => ResetTo(es, addr, ms, fromNow, now)
    case List(now) => ListExpired(es, now).1
  }

  /** A new timer starts one period after its creation, at an address no timer in the set has. */
  predicate Legal(es: seq<Entry>, op: Op) {
    op.Add? ==> op.entry.next >= op.entry.ms && Lookup(es, op.entry.addr) == None
  }

  predicate AllLegal(es: seq<Entry>, ops: seq<Op>)
    decreases |ops|
  {
    ops == [] || (Legal(es, ops[0]) && AllLegal(After(es, ops[0]), ops[1..]))
  }

  function Final(es: seq<Entry>, ops: seq<Op>): seq<Entry>
    decreases |ops|
  {
    if ops == [] then es else Final(After(es, ops[0]), ops[1..])
  }

  /** The firings of the timer at `addr` along a run. */
  function FiringsOf(es: seq<Entry>, ops: seq<Op>, addr: nat): seq<Firing>
    decreases |ops|
  {
    if ops == [] then []
    else
      var rest := FiringsOf(After(es, ops[0]), ops[1..], addr);
      if ops[0].List? && Lookup(ListExpired(es, ops[0].now).0, addr).Some?
      then [Firing(ops[0].now, Lookup(ListExpired(es, ops[0].now).0, addr).value)] + rest
      else rest
  }

  // ------------------------------------------------------------------ one call

  lemma RescheduledIsRight(es: seq<Entry>, e: Entry, ms: nat, next: int, addr: nat)
    requires TimerSet(es) && Lookup(es, e.addr) == Some(e) && next >= ms
    ensures TimerSet(Rescheduled(es, e, ms, next))
    ensures Lookup(Rescheduled(es, e, ms, next), addr)
         == if addr == e.addr then Some(e.(ms := ms, next := next)) else Lookup(es, addr)
  {
    var f, r := e.(ms := ms, next := next), Remove(es, e.addr);
    LookupIsMembership(es, e.addr);
    RemoveEntries(es, e.addr);
    InsertKeepsOrder(r, f);
    InsertOneEach(r, f);
    SameLookup(es, Insert(r, f), addr, e.addr);
    LookupIs(Insert(r, f), f);
  }

  /** Sets with the same entries outside `changed` agree on every other address. */
  lemma SameLookup(a: seq<Entry>, b: seq<Entry>, addr: nat, changed: nat)
    requires OneEach(a) && OneEach(b)
    requires forall x: Entry :: x.addr != changed ==> (x in a <==> x in b)
    ensures addr != changed ==> Lookup(a, addr) == Lookup(b, addr)
  {
    LookupIsMembership(a, addr);
    LookupIsMembership(b, addr);
    if addr != changed && Lookup(a, addr).Some? {
      LookupIs(b, Lookup(a, addr).value);
    }
  }

  lemma ListedLookup(es: seq<Entry>, now: nat, addr: nat)
    requires TimerSet(es)
    ensures var (fired, after) := ListExpired(es, now);
            && TimerSet(after)
            && match Lookup(es, addr)
               case None => Lookup(fired, addr) == None && Lookup(after, addr) == None
               case Some(e) =>
                 if e.next > now then Lookup(fired, addr) == None && Lookup(after, addr) == Some(e)
                 else Lookup(fired, addr) == Some(e)
                      && Lookup(after, addr) == if e.recurring then Some(Bump(e)) else None
  {
    hide Sorted, ListExpired, Lookup;
    var (fired, after) := ListExpired(es, now);
    ListExpiredIsRight(es, now);
    LookupIsMembership(es, addr);
    LookupIsMembership(fired, addr);
    LookupIsMembership(after, addr);
    if Lookup(es, addr).Some? {
      var e := Lookup(es, addr).value;
      if e.next > now {
        LookupIs(after, e);
      } else {
        LookupIs(fired, e);
        if e.recurring {
          LookupIs(after, Bump(e));
        }
      }
      assert forall x :: x in es && x.addr == addr ==> x == e;
    }
  }

  lemma AddLookup(es: seq<Entry>, e: Entry, addr: nat)
    requires TimerSet(es) && Lookup(es, e.addr) == None && e.next >= e.ms
    ensures TimerSet(Insert(es, e))
    ensures Lookup(Insert(es, e), addr) == if addr == e.addr then Some(e) else Lookup(es, addr)
  {
    LookupIsMembership(es, e.addr);
    InsertKeepsOrder(es, e);
    InsertOneEach(es, e);
    SameLookup(es, Insert(es, e), addr, e.addr);
    LookupIs(Insert(es, e), e);
  }

  lemma CancelLookup(es: seq<Entry>, a: nat, addr: nat)
    requires TimerSet(es)
    ensures TimerSet(Remove(es, a))
    ensures Lookup(Remove(es, a), addr) == if addr == a then None else Lookup(es, addr)
  {
    RemoveEntries(es, a);
    SameLookup(es, Remove(es, a), addr, a);
    LookupIsMembership(Remove(es, a), addr);
  }

  lemma PeriodIsPast(es: seq<Entry>, addr: nat)
    requires TimerSet(es) && Lookup(es, addr).Some?
    ensures Lookup(es, addr).value.addr == addr && Lookup(es, addr).value.next >= Lookup(es, addr).value.ms
  {
    LookupIsMembership(es, addr);
  }

  ghost predicate Touches(op: Op, addr: nat) {
    match op
    case Add(e) => e.addr == addr
    case Cancel(a) => a == addr
    case Refresh(a, _) => a == addr
    case Reset(a, _, _, _) => a == addr
    case List(_) => false
  }

  /** One call keeps the set well formed; other timers notice only listExpiredCb; cancel always removes. */
  lemma StepLookup(es: seq<Entry>, op: Op, addr: nat)
    requires TimerSet(es) && Legal(es, op)
    ensures TimerSet(After(es, op))
    ensures !Touches(op, addr) && !op.List? ==> Lookup(After(es, op), addr) == Lookup(es, addr)
    ensures op.Cancel? && op.addr == addr ==> Lookup(After(es, op), addr) == None
    ensures Lookup(es, addr) == None && !(op.Add? && op.entry.addr == addr) ==> Lookup(After(es, op), addr) == None
    ensures op.Add? && op.entry.addr == addr ==> Lookup(After(es, op), addr) == Some(op.entry)
    ensures Lookup(es, addr).Some? && op.Refresh? && op.addr == addr ==>
              var e := Lookup(es, addr).value;
              Lookup(After(es, op), addr) == Some(e.(next := op.now + e.ms))
    ensures Lookup(es, addr).Some? && op.Reset? && op.addr == addr ==>
              var e := Lookup(es, addr).value;
              var start := if op.fromNow then op.now else e.next - e.ms;
              Lookup(After(es, op), addr) == Some(e.(ms := op.ms, next := start + op.ms))
  {
    hide TimerSet, Lookup, Insert, Remove, ListExpired, Rescheduled;
    match op
    case Add(e) =>
      AddLookup(es, e, addr);
    case Cancel(a) =>
      CancelLookup(es, a, addr);
    case Refresh(a, now) =>
      if Lookup(es, a).Some? {
        var e := Lookup(es, a).value;
        assert e.addr == a by { LookupIsMembership(es, a); }
        RescheduledIsRight(es, e, e.ms, now + e.ms, addr);
      }
    case Reset(a, ms, fromNow, now) =>
      if Lookup(es, a).Some? {
        var e := Lookup(es, a).value;
        assert e.addr == a && e.next >= e.ms by { PeriodIsPast(es, a); }
        if ms != e.ms || fromNow {
          RescheduledIsRight(es, e, ms, (if fromNow then now else e.next - e.ms) + ms, addr);
        }
      }
    case List(now) =>
      ListedLookup(es, now, addr);
  }

  // ---------------------------------------------------------------------- runs

  /** The set stays strictly sorted, without duplicates, along every run. */
  lemma {:induction false} RunKeepsTimerSet(es: seq<Entry>, ops: seq<Op>)
    requires TimerSet(es) && AllLegal(es, ops)
    ensures TimerSet(Final(es, ops))
    decreases |ops|
  {
    if ops != [] {
      StepLookup(es, ops[0], 0);
      RunKeepsTimerSet(After(es, ops[0]), ops[1..]);
    }
  }

  ghost predicate Adds(op: Op, addr: nat) { op.Add? && op.entry.addr == addr }

  /**
   A timer that is not in the set never comes back and never fires: neither
   refresh nor reset revive it.
   */
  lemma {:induction false} GoneForGood(es: seq<Entry>, ops: seq<Op>, addr: nat)
    requires TimerSet(es) && AllLegal(es, ops) && Lookup(es, addr) == None
    requires forall op :: op in ops ==> !Adds(op, addr)
    ensures FiringsOf(es, ops, addr) == [] && Lookup(Final(es, ops), addr) == None
    decreases |ops|
  {
    hide TimerSet, ListExpired, Lookup;
    if ops != [] {
      assert ops[0] in ops;
      StepLookup(es, ops[0], addr);
      if ops[0].List? { ListedLookup(es, ops[0].now, addr); }
      GoneForGood(After(es, ops[0]), ops[1..], addr);
    }
  }

  /** After cancel, the callback is never delivered again. */
  lemma CancelledNeverFires(es: seq<Entry>, ops: seq<Op>, addr: nat)
    requires TimerSet(es) && AllLegal(es, [Cancel(addr)] + ops)
    requires forall op :: op in ops ==> !Adds(op, addr)
    ensures FiringsOf(es, [Cancel(addr)] + ops, addr) == []
  {
    StepLookup(es, Cancel(addr), addr);
    assert ([Cancel(addr)] + ops)[1..] == ops;
    GoneForGood(After(es, Cancel(addr)), ops, addr);
  }

  /** A one-shot timer fires at most once, whatever is called on it, and is gone afterwards. */
  lemma {:induction false} OneShotFiresOnce(es: seq<Entry>, ops: seq<Op>, addr: nat)
    requires TimerSet(es) && AllLegal(es, ops)
    requires Lookup(es, addr).Some? && !Lookup(es, addr).value.recurring
    requires forall op :: op in ops ==> !Adds(op, addr)
    ensures |FiringsOf(es, ops, addr)| <= 1
    ensures FiringsOf(es, ops, addr) != [] ==> Lookup(Final(es, ops), addr) == None
    decreases |ops|
  {
    hide TimerSet, ListExpired, Lookup;
    if ops != [] {
      assert ops[0] in ops;
      var op, next := ops[0], After(es, ops[0]);
      StepLookup(es, op, addr);
      if op.List? { ListedLookup(es, op.now, addr); }
      if Lookup(next, addr).Some? {
        OneShotFiresOnce(next, ops[1..], addr);
      } else {
        GoneForGood(next, ops[1..], addr);
      }
    }
  }

  /** `k` periods after `next`. */
  function Later(next: int, ms: nat, k: nat): int
    decreases k
  {
    if k == 0 then next else Later(next + ms, ms, k - 1)
  }

  lemma {:induction false} LaterIsProduct(next: int, ms: nat, k: nat)
    ensures Later(next, ms, k) == next + k * ms
    decreases k
  {
    if k > 0 {
      LaterIsProduct(next + ms, ms, k - 1);
      assert (k - 1) * ms == k * ms - ms;
    }
  }

  /**
   A recurring timer that nobody refreshes, resets or cancels: after k firings
   its next time is the first one plus k periods, and firing j (from 0) carries
   the time `first + j * ms` and never comes before it.
   */
  lemma {:induction false} RecurringKeepsItsSchedule(es: seq<Entry>, ops: seq<Op>, e: Entry)
    requires TimerSet(es) && AllLegal(es, ops)
    requires Lookup(es, e.addr) == Some(e) && e.recurring
    requires forall op :: op in ops ==> !Touches(op, e.addr)
    ensures var fs := FiringsOf(es, ops, e.addr);
            && Lookup(Final(es, ops), e.addr) == Some(e.(next := e.next + |fs| * e.ms))
            && forall j :: 0 <= j < |fs| ==>
                 fs[j].entry == e.(next := e.next + j * e.ms) && fs[j].at >= e.next + j * e.ms
  {
    var fs := FiringsOf(es, ops, e.addr);
    ScheduleByCounting(es, ops, e);
    LaterIsProduct(e.next, e.ms, |fs|);
    forall j | 0 <= j < |fs|
      ensures fs[j].entry == e.(next := e.next + j * e.ms) && fs[j].at >= e.next + j * e.ms
    {
      LaterIsProduct(e.next, e.ms, j);
    }
  }

  lemma {:induction false} ScheduleByCounting(es: seq<Entry>, ops: seq<Op>, e: Entry)
    requires TimerSet(es) && AllLegal(es, ops)
    requires Lookup(es, e.addr) == Some(e) && e.recurring
    requires forall op :: op in ops ==> !Touches(op, e.addr)
    ensures var fs := FiringsOf(es, ops, e.addr);
            && Lookup(Final(es, ops), e.addr) == Some(e.(next := Later(e.next, e.ms, |fs|)))
            && forall j :: 0 <= j < |fs| ==>
                 fs[j].entry == e.(next := Later(e.next, e.ms, j)) && fs[j].at >= Later(e.next, e.ms, j)
    decreases |ops|
  {
    hide TimerSet, ListExpired, Lookup;
    if ops != [] {
      var op, next := ops[0], After(es, ops[0]);
      assert op in ops;
      StepLookup(es, op, e.addr);
      if op.List? {
        ListedLookup(es, op.now, e.addr);
      }
      var f := Lookup(next, e.addr).value;
      ScheduleByCounting(next, ops[1..], f);
    }
  }

  // --------------------------------------------------------------- fixed clock

  function Repeat(now: nat, n: nat): (r: seq<Op>)
    ensures |r| == n
  {
    if n == 0 then [] else [List(now)] + Repeat(now, n - 1)
  }

  /** How often a timer with this schedule is due at `now`. */
  function Due(next: int, ms: nat, now: nat): nat
    requires ms > 0
    decreases now - next
  {
    if next > now then 0 else 1 + Due(next + ms, ms, now)
  }

  lemma {:induction false} DueIsQuotient(next: int, ms: nat, now: nat)
    requires ms > 0
    ensures Due(next, ms, now) == if next > now then 0 else (now - next) / ms + 1
    decreases now - next
  {
    if next <= now {
      DueIsQuotient(next + ms, ms, now);
      if next + ms <= now {
        DividedBack(now - next, ms);
      } else {
        assert 0 <= now - next < ms;
      }
    }
  }

  lemma DividedBack(x: nat, ms: nat)
    requires 0 < ms <= x
    ensures x / ms == (x - ms) / ms + 1
  {
    var q, r := (x - ms) / ms, (x - ms) % ms;
    assert x == (q + 1) * ms + r;
    var d := x / ms - (q + 1);
    assert d * ms == r - x % ms;
    assert d >= 1 ==> d * ms >= ms;
    assert d <= -1 ==> d * ms + ms <= 0;
  }

  /**
   n calls in a row at the same clock reading fire a recurring timer with ms > 0
   as often as it is due, (now - next) / ms + 1 times, then no more; with ms = 0
   it stays due and every call fires it.
   */
  lemma {:induction false} CatchesUpAtFixedClock(es: seq<Entry>, e: Entry, now: nat, n: nat)
    requires TimerSet(es) && Lookup(es, e.addr) == Some(e) && e.recurring
    ensures var count := |FiringsOf(es, Repeat(now, n), e.addr)|;
            if e.next > now then count == 0
            else if e.ms == 0 then count == n
            else var due := (now - e.next) / e.ms + 1; count == if n < due then n else due
  {
    CountAtFixedClock(es, e, now, n);
    if e.ms > 0 { DueIsQuotient(e.next, e.ms, now); }
  }

  lemma {:induction false} CountAtFixedClock(es: seq<Entry>, e: Entry, now: nat, n: nat)
    requires TimerSet(es) && Lookup(es, e.addr) == Some(e) && e.recurring
    ensures var count := |FiringsOf(es, Repeat(now, n), e.addr)|;
            if e.ms == 0 then count == if e.next > now then 0 else n
            else count == if n < Due(e.next, e.ms, now) then n else Due(e.next, e.ms, now)
    decreases n
  {
    if n > 0 {
      ListedLookup(es, now, e.addr);
      var after := After(es, List(now));
      assert Repeat(now, n)[1..] == Repeat(now, n - 1);
      CountAtFixedClock(after, Lookup(after, e.addr).value, now, n - 1);
    }
  }
}
