/**
 Timer and TimerManager.  The std::set is a sequence in the order of the
 comparator; clock readings and the address of a new object are parameters.
 */
module Timers {
  import opened Wrappers
  import opened Schedulers
  import opened TimerOrder
  import opened TimerHistory

  /** ~0ull, the "no timer" answer of getNextTimer. */
  const NO_TIMER := 0xFFFF_FFFF_FFFF_FFFF

  /** How cancel ends: true, false, or an erase of the end iterator, whose effect is undefined. */
  datatype Cancelling = Done | Refused | EndErased

  class Timer {
    const addr: nat
    const recurring: bool
    const manager: TimerManager
    var ms: nat
    var next: int
    var cb: Option<Code>

    constructor (addr: nat, ms: nat, cb: Code, recurring: bool, now: nat, manager: TimerManager)
      ensures this.addr == addr && this.recurring == recurring && this.manager == manager
      ensures this.ms == ms && next == now + ms && this.cb == Some(cb)
    {
      this.addr := addr;
      this.recurring := recurring;
      this.manager := manager;
      this.ms := ms;
      this.next := now + ms;
      this.cb := Some(cb);
    }

    ghost predicate Shows(e: Entry)
      reads this
    {
      e.addr == addr && e.recurring == recurring && e.ms == ms && e.next == next && cb == Some(e.cb)
    }

    /** The manager is consistent, and no other timer in its set has this address. */
    ghost predicate Managed()
      reads this, manager, manager.timers
    {
      manager.Valid() && forall u :: u in manager.timers ==> u.addr == addr ==> u == this
    }

    /** A timer that has fired for the last time still has its callback, and erasing it erases the end of the set. */
    method Cancel() returns (r: Cancelling)
      requires Managed()
      modifies this`cb, manager`timers, manager`view
      ensures r == if old(cb) == None then Refused else if old(this in manager.timers) then Done else EndErased
      ensures r != EndErased ==> Managed() && manager.view == After(old(manager.view), TimerHistory.Cancel(addr))
      ensures cb == None && this !in manager.timers
    {
      Found();
      if cb.None? {
        RemoveNothing(manager.view, addr);
        return Refused;
      }
      var i := manager.Find(this);
      if i == |manager.timers| {
        cb := None;
        return EndErased;
      }
      manager.Erase(i);
      cb := None;
      return Done;
    }

    /** Out of the set, new key, back into the set. */
    method MoveTo(i: nat, ms: nat, next: int)
      requires Managed() && i < |manager.timers| && manager.timers[i] == this && next >= ms
      modifies this, manager`timers, manager`view
      ensures Managed() && cb == old(cb) && this.ms == ms && this.next == next
      ensures manager.view == Rescheduled(old(manager.view), old(manager.view[i]), ms, next)
      ensures this in manager.timers
    {
      ghost var e := manager.view[i].(ms := ms, next := next);
      manager.Erase(i);
      this.ms := ms;
      this.next := next;
      var _ := manager.InsertTimer(this, e);
    }

    lemma Found()
      requires Managed()
      ensures match Lookup(manager.view, addr)
              case None => this !in manager.timers
              case Some(e) => this in manager.timers && Shows(e)
    {
      LookupIsMembership(manager.view, addr);
    }

    method Refresh(now: nat) returns (ok: bool)
      requires Managed()
      modifies this, manager`timers, manager`view
      ensures Managed()
      ensures ok == old(this in manager.timers)
      ensures manager.view == After(old(manager.view), TimerHistory.Refresh(addr, now))
      ensures ms == old(ms) && cb == old(cb) && next == if ok then now + ms else old(next)
    {
      Found();
      if cb.None? {
        return false;
      }
      var i := manager.Find(this);
      if i == |manager.timers| {
        return false;
      }
      MoveTo(i, ms, now + ms);
      return true;
    }

    /** Without a change of period and start it answers true, even on a cancelled timer. */
    method Reset(ms: nat, fromNow: bool, now: nat) returns (ok: bool)
      requires Managed()
      modifies this, manager`timers, manager`view
      ensures Managed()
      ensures ok == (old(this in manager.timers) || (ms == old(this.ms) && !fromNow))
      ensures manager.view == After(old(manager.view), TimerHistory.Reset(addr, ms, fromNow, now))
      ensures cb == old(cb) && this.ms == if ok then ms else old(this.ms)
      ensures next == if !ok || (ms == old(this.ms) && !fromNow) then old(next)
                      else (if fromNow then now else old(next) - old(this.ms)) + ms
    {
      Found();
      if ms == this.ms && !fromNow {
        return true;
      }
      if cb.None? {
        return false;
      }
      var i := manager.Find(this);
      if i == |manager.timers| {
        return false;
      }
      var start := if fromNow then now else next - this.ms;
      MoveTo(i, ms, start + ms);
      return true;
    }
  }

  class TimerManager {
    var timers: seq<Timer>
    ghost var view: seq<Entry>   // what the timers in the set show

    constructor ()
      ensures Valid() && timers == []
    {
      timers, view := [], [];
    }

    ghost predicate Valid()
      reads this, timers
    {
      && |timers| == |view|
      && (forall i :: 0 <= i < |timers| ==> timers[i].Shows(view[i]))
      && TimerSet(view)
    }

    /** std::set::lower_bound for the key (next, addr). */
    method LowerBound(next: int, addr: nat) returns (i: nat)
      requires Valid()
      ensures i <= |view|
      ensures forall j :: 0 <= j < i ==> KeyBefore(view[j].next, view[j].addr, next, addr)
      ensures forall j :: i <= j < |view| ==> !KeyBefore(view[j].next, view[j].addr, next, addr)
    {
      i := 0;
      while i < |timers| && KeyBefore(timers[i].next, timers[i].addr, next, addr)
        invariant i <= |view|
        invariant forall j :: 0 <= j < i ==> KeyBefore(view[j].next, view[j].addr, next, addr)
      {
        i := i + 1;
      }
      assert forall j :: i < j < |view| ==> Before(view[i], view[j]);
    }

    /** std::set::find: by key, which agrees with identity. */
    method Find(t: Timer) returns (i: nat)
      requires Valid() && forall u :: u in timers ==> u.addr == t.addr ==> u == t
      ensures if t in timers then i < |timers| && timers[i] == t else i == |timers|
    {
      i := LowerBound(t.next, t.addr);
      if i < |timers| && KeyBefore(t.next, t.addr, timers[i].next, timers[i].addr) {
        i := |timers|;
      }
    }

    method Erase(i: nat)
      requires Valid() && i < |timers|
      modifies `timers, `view
      ensures Valid()
      ensures timers == old(timers)[..i] + old(timers)[i + 1..]
      ensures view == Remove(old(view), old(timers)[i].addr)
      ensures forall e :: e in view ==> e.addr != old(timers)[i].addr
    {
      RemoveIsSplice(view, i);
      RemoveEntries(view, timers[i].addr);
      view := view[..i] + view[i + 1..];
      timers := timers[..i] + timers[i + 1..];
    }

    lemma InsertKeepsSet(es: seq<Entry>, e: Entry)
      requires TimerSet(es) && e.next >= e.ms && forall x :: x in es ==> x.addr != e.addr
      ensures TimerSet(Insert(es, e))
    {
      InsertKeepsOrder(es, e);
      InsertOneEach(es, e);
    }

    /** std::set::insert of a timer that is not in the set; tells whether it is now the first. */
    method InsertTimer(t: Timer, ghost e: Entry) returns (atFront: bool)
      requires Valid() && t.Shows(e) && e.next >= e.ms
      requires forall x :: x in view ==> x.addr != t.addr
      modifies `timers, `view
      ensures Valid()
      ensures view == Insert(old(view), e)
      ensures forall u :: u in timers <==> u in old(timers) || u == t
      ensures atFront == (view[0] == e)
    {
      hide TimerSet, Insert;
      InsertKeepsSet(view, e);
      var i := LowerBound(t.next, t.addr);
      InsertIsSplice(view, e, i);
      view := view[..i] + [e] + view[i..];
      timers := timers[..i] + [t] + timers[i..];
      atFront := i == 0;
    }

    /** `onTimerInsertedAtFront` is called exactly when the new timer is the first of the set. */
    method AddTimer(ms: nat, cb: Code, recurring: bool, now: nat, addr: nat) returns (t: Timer, atFront: bool)
      requires Valid() && forall u :: u in timers ==> u.addr != addr
      modifies `timers, `view
      ensures fresh(t) && t.manager == this && t.addr == addr && t.Managed() && t in timers
      ensures var e := Entry(addr, now + ms, ms, recurring, cb);
              view == After(old(view), Add(e)) && atFront == (view[0] == e)
    {
      t := new Timer(addr, ms, cb, recurring, now, this);
      ghost var e := Entry(addr, now + ms, ms, recurring, cb);
      atFront := InsertTimer(t, e);
    }

    /** 0 exactly when a callback is due; otherwise how long until the first one is. */
    method GetNextTimer(now: nat) returns (r: nat)
      requires Valid()
      ensures view == [] ==> r == NO_TIMER
      ensures view != [] ==> (r == 0 <==> exists e :: e in view && e.next <= now)
      ensures view != [] && r > 0 ==>
                (forall e :: e in view ==> e.next - now >= r) && exists e :: e in view && e.next - now == r
      ensures (forall e :: e in view ==> e.next - now < NO_TIMER) ==> (r == NO_TIMER <==> view == [])
    {
      if timers == [] {
        return NO_TIMER;
      }
      assert view[0] in view && timers[0].next == view[0].next;
      assert forall i :: 0 < i < |view| ==> Before(view[0], view[i]);
      if now >= timers[0].next {
        return 0;
      } else {
        return timers[0].next - now;
      }
    }

    /** `lower_bound` of a temporary timer due now, then past the timers due exactly now. */
    method CountExpired(now: nat, probe: nat) returns (k: nat)
      requires Valid()
      ensures k == ExpiredCount(view, now) <= |timers|
    {
      k := LowerBound(now, probe);
      while k < |timers| && timers[k].next == now
        invariant k <= |timers|
        invariant forall j :: 0 <= j < k ==> view[j].next <= now
        invariant forall j :: k <= j < |view| ==> view[j].next >= now
      {
        k := k + 1;
      }
      ExpiredCountIs(view, now, k);
    }

    /** The expired timers leave, their callbacks are returned in set order, and recurring ones come back. */
    method ListExpiredCb(now: nat, probe: nat) returns (cbs: seq<Code>)
      requires Valid()
      modifies this, timers
      ensures Valid()
      ensures view == After(old(view), List(now))
      ensures var fired := ListExpired(old(view), now).0;
              |cbs| == |fired| && forall i :: 0 <= i < |cbs| ==> cbs[i] == fired[i].cb
      ensures forall t :: t in timers ==> t in old(timers)
      ensures forall t :: t in old(timers) ==> t.cb == old(t.cb) && t.ms == old(t.ms)
    {
      hide Insert;
      ghost var fired := ListExpired(view, now).0;
      cbs := [];
      ListExpiredIsRight(view, now);
      if timers == [] {
        return;
      }
      if timers[0].next > now {
        return;
      }
      var k := CountExpired(now, probe);
      var expired := TakeExpired(k);
      cbs := PutBack(expired, fired);
    }

    method TakeExpired(k: nat) returns (expired: seq<Timer>)
      requires Valid() && k <= |timers|
      modifies `timers, `view
      ensures Valid()
      ensures expired == old(timers)[..k] && timers == old(timers)[k..] && view == old(view)[k..]
    {
      expired := timers[..k];
      timers, view := timers[k..], view[k..];
    }

    /** A fired recurring timer returns, one period later. */
    method Again(t: Timer, ghost e: Entry)
      requires Valid() && t.Shows(e) && e.next >= e.ms
      requires forall x :: x in view ==> x.addr != e.addr
      modifies t`next, `timers, `view
      ensures Valid() && t.cb == old(t.cb) && t.ms == old(t.ms)
      ensures view == Insert(old(view), Bump(e))
      ensures forall x :: x in view ==> x in old(view) || x.addr == e.addr
      ensures forall u :: u in timers <==> u in old(timers) || u == t
    {
      t.next := t.next + t.ms;
      InsertKeepsOrder(view, Bump(e));
      var _ := InsertTimer(t, Bump(e));
    }

    /** One round of the second loop: the callback is taken, and a recurring timer returns. */
    method Fire(t: Timer, ghost e: Entry) returns (code: Code)
      requires Valid() && t.Shows(e) && e.next >= e.ms
      requires forall x :: x in view ==> x.addr != e.addr
      modifies t`next, `timers, `view
      ensures Valid() && t.cb == old(t.cb) && t.ms == old(t.ms) && code == e.cb
      ensures view == if e.recurring then Insert(old(view), Bump(e)) else old(view)
      ensures forall x :: x in view ==> x in old(view) || x.addr == e.addr
      ensures forall u :: u in timers ==> u in old(timers) || u == t
    {
      hide Insert, Bump;
      code := t.cb.value;
      if t.recurring {
        Again(t, e);
      }
    }

    /** No timer in the set has the address of one of `fired`. */
    ghost predicate Apart(es: seq<Entry>, fired: seq<Entry>) {
      forall x, y :: x in es && y in fired ==> x.addr != y.addr
    }

    lemma ApartNext(es: seq<Entry>, after: seq<Entry>, fired: seq<Entry>, i: nat)
      requires i < |fired| && OneEach(fired) && Apart(es, fired[i..])
      requires forall x :: x in after ==> x in es || x.addr == fired[i].addr
      ensures Apart(after, fired[i + 1..])
    {
      forall x, y | x in after && y in fired[i + 1..]
        ensures x.addr != y.addr
      {
        var j :| 0 <= j < |fired[i + 1..]| && fired[i + 1..][j] == y;
        assert fired[i + 1 + j] == y && fired[i..][j + 1] == y;
      }
    }

    lemma ApartFirst(es: seq<Entry>, fired: seq<Entry>, i: nat)
      requires i < |fired| && Apart(es, fired[i..])
      ensures forall x :: x in es ==> x.addr != fired[i].addr
    {
      assert fired[i..][0] == fired[i];
    }

    lemma PeriodsPast(es: seq<Entry>, i: nat)
      requires TimerSet(es) && i < |es|
      ensures es[i].next >= es[i].ms
    {
    }

    lemma Distinct(expired: seq<Timer>, fired: seq<Entry>)
      requires OneEach(fired) && |fired| == |expired|
      requires forall i :: 0 <= i < |expired| ==> expired[i].Shows(fired[i])
      ensures forall i, j :: 0 <= i < j < |expired| ==> expired[i] != expired[j]
    {
    }

    method PutBack(expired: seq<Timer>, ghost fired: seq<Entry>) returns (cbs: seq<Code>)
      requires Valid() && TimerSet(fired) && |fired| == |expired|
      requires forall i :: 0 <= i < |expired| ==> expired[i].Shows(fired[i])
      requires Apart(view, fired)
      modifies this, expired
      ensures Valid()
      ensures view == Reinsert(old(view), fired)
      ensures |cbs| == |fired| && forall i :: 0 <= i < |cbs| ==> cbs[i] == fired[i].cb
      ensures forall t :: t in timers ==> t in old(timers) || t in expired
      ensures forall t :: t in expired ==> t.cb == old(t.cb) && t.ms == old(t.ms)
    {
      hide Insert, Bump, Sorted, Apart, Valid, Timer.Shows, OneEach;
      Distinct(expired, fired);
      cbs := [];
      var i := 0;
      assert fired[0..] == fired;
      while i < |expired|
        invariant i <= |expired| && |cbs| == i
        invariant Valid()
        invariant Reinsert(view, fired[i..]) == Reinsert(old(view), fired)
        invariant forall j :: i <= j < |expired| ==> expired[j].Shows(fired[j])
        invariant Apart(view, fired[i..])
        invariant forall j :: 0 <= j < i ==> cbs[j] == fired[j].cb
        invariant forall t :: t in timers ==> t in old(timers) || t in expired
        invariant forall t :: t in expired ==> t.cb == old(t.cb) && t.ms == old(t.ms)
      {
        var t := expired[i];
        ghost var before := view;
        assert fired[i..][0] == fired[i] && fired[i..][1..] == fired[i + 1..];
        ApartFirst(view, fired, i);
        PeriodsPast(fired, i);
        var code := Fire(t, fired[i]);
        cbs := cbs + [code];
        ApartNext(before, view, fired, i);
        i := i + 1;
      }
    }
  }
}
