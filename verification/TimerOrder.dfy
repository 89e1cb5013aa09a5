/**
 The timer set as a value: entries ordered by (next, address), and what the
 operations of TimerManager do to it.
 */
module TimerOrder {
  import opened Wrappers
  import opened Schedulers

  /** A timer in the set; `addr` is the address of the Timer object. */
  datatype Entry = Entry(addr: nat, next: int, ms: nat, recurring: bool, cb: Code)

  /** Timer::Comparator on the keys (next, address) of two non-null timers. */
  predicate KeyBefore(next1: int, addr1: nat, next2: int, addr2: nat) {
    next1 < next2 || (next1 == next2 && addr1 < addr2)
  }

  predicate Before(a: Entry, b: Entry) {
    KeyBefore(a.next, a.addr, b.next, b.addr)
  }

  ghost predicate Sorted(es: seq<Entry>) {
    forall i, j :: 0 <= i < j < |es| ==> Before(es[i], es[j])
  }

  ghost predicate OneEach(es: seq<Entry>) {
    forall i, j :: 0 <= i < j < |es| ==> es[i].addr != es[j].addr
  }

  /** std::set::insert: an entry with the same key stays. */
  function Insert(es: seq<Entry>, e: Entry): seq<Entry> {
    if es == [] || Before(e, es[0]) then [e] + es
    else if Before(es[0], e) then [es[0]] + Insert(es[1..], e)
    else es
  }

  function Remove(es: seq<Entry>, addr: nat): seq<Entry> {
    if es == [] then []
    else if es[0].addr == addr then es[1..]
    else [es[0]] + Remove(es[1..], addr)
  }

  /** How many entries at the front have `next <= now`. */
  function ExpiredCount(es: seq<Entry>, now: nat): (k: nat)
    ensures k <= |es|
  {
    if es == [] || es[0].next > now then 0 else 1 + ExpiredCount(es[1..], now)
  }

  function Bump(e: Entry): Entry {
    e.(next := e.next + e.ms)
  }

  /** Puts the recurring ones of the expired timers back, each moved on by its period. */
  function Reinsert(es: seq<Entry>, expired: seq<Entry>): seq<Entry>
    decreases |expired|
  {
    if expired == [] then es
    else Reinsert(if expired[0].recurring then Insert(es, Bump(expired[0])) else es, expired[1..])
  }

  /** listExpiredCb: the timers that fire, as they were, and the set afterwards. */
  function ListExpired(es: seq<Entry>, now: nat): (seq<Entry>, seq<Entry>) {
    var k := ExpiredCount(es, now);
    (es[..k], Reinsert(es[k..], es[..k]))
  }

  function Lookup(es: seq<Entry>, addr: nat): Option<Entry> {
    if es == [] then None else if es[0].addr == addr then Some(es[0]) else Lookup(es[1..], addr)
  }

  // ------------------------------------------------------------------ ordering

  lemma SortedTail(es: seq<Entry>)
    requires Sorted(es) && es != []
    ensures Sorted(es[1..])
  {
  }

  lemma {:induction false} InsertKeepsOrder(es: seq<Entry>, e: Entry)
    requires Sorted(es) && forall x :: x in es ==> x.addr != e.addr
    ensures Sorted(Insert(es, e))
    ensures forall x :: x in Insert(es, e) <==> x in es || x == e
  {
    if es != [] && !Before(e, es[0]) {
      SortedTail(es);
      InsertKeepsOrder(es[1..], e);
      var r := Insert(es[1..], e);
      assert forall x :: x in r ==> Before(es[0], x) by {
        assert forall x :: x in es[1..] ==> Before(es[0], x);
      }
      assert es == [es[0]] + es[1..];
    }
  }

  lemma {:induction false} InsertOneEach(es: seq<Entry>, e: Entry)
    requires OneEach(es) && Sorted(es) && forall x :: x in es ==> x.addr != e.addr
    ensures OneEach(Insert(es, e))
  {
    if es != [] && !Before(e, es[0]) {
      InsertOneEach(es[1..], e);
      InsertKeepsOrder(es[1..], e);
      var r := Insert(es[1..], e);
      assert forall x :: x in r ==> x.addr != es[0].addr;
    }
  }

  /** The expired entries are exactly those with `next <= now`: a prefix, because the set is sorted. */
  lemma {:induction false} ExpiredIsPrefix(es: seq<Entry>, now: nat)
    requires Sorted(es)
    ensures forall i :: 0 <= i < |es| ==> (es[i].next <= now <==> i < ExpiredCount(es, now))
  {
    if es != [] {
      ExpiredIsPrefix(es[1..], now);
      assert forall i :: 0 < i < |es| ==> es[i] == es[1..][i - 1] && es[0].next <= es[i].next;
    }
  }

  lemma {:induction false} ExpiredCountIs(es: seq<Entry>, now: nat, k: nat)
    requires k <= |es| && forall j :: 0 <= j < k ==> es[j].next <= now
    requires k < |es| ==> es[k].next > now
    ensures ExpiredCount(es, now) == k
  {
    if k > 0 {
      ExpiredCountIs(es[1..], now, k - 1);
    }
  }

  /** Two strictly sorted lists with the same entries are equal, so the properties below determine the set. */
  lemma {:induction false} SortedIsUnique(a: seq<Entry>, b: seq<Entry>)
    requires Sorted(a) && Sorted(b) && forall x :: x in a <==> x in b
    ensures a == b
  {
    assert b != [] ==> b[0] in a;
    if a != [] {
      assert a[0] in b && b != [];
      assert b[0] in a;
      assert a[0] == b[0];
      SortedTail(a);
      SortedTail(b);
      assert forall x :: x in a <==> x == a[0] || x in a[1..];
      assert forall x :: x in b <==> x == b[0] || x in b[1..];
      assert a[0] !in a[1..] && b[0] !in b[1..];
      SortedIsUnique(a[1..], b[1..]);
    }
  }

  lemma {:induction false} ReinsertEntries(es: seq<Entry>, expired: seq<Entry>)
    requires Sorted(es) && OneEach(es) && OneEach(expired)
    requires forall x, y :: x in es && y in expired ==> x.addr != y.addr
    ensures var r := Reinsert(es, expired);
            && Sorted(r) && OneEach(r)
            && forall x :: x in r <==> x in es || exists e :: e in expired && e.recurring && x == Bump(e)
    decreases |expired|
  {
    if expired != [] {
      var e, rest := expired[0], expired[1..];
      assert e in expired && forall y :: y in rest ==> y in expired && y.addr != e.addr;
      assert forall y :: y in expired ==> y == e || y in rest;
      var next := if e.recurring then Insert(es, Bump(e)) else es;
      if e.recurring {
        InsertKeepsOrder(es, Bump(e));
        InsertOneEach(es, Bump(e));
      }
      ReinsertEntries(next, rest);
    }
  }

  /**
   listExpiredCb(now) on a set: exactly the timers with next <= now fire, once
   each, in set order; afterwards the set holds the other timers unchanged and
   the expired recurring ones moved on by their period.
   */
  lemma ListExpiredIsRight(es: seq<Entry>, now: nat)
    requires Sorted(es) && OneEach(es)
    ensures var (fired, after) := ListExpired(es, now);
            && Sorted(fired) && OneEach(fired) && Sorted(after) && OneEach(after)
            && (forall x :: x in fired <==> x in es && x.next <= now)
            && (forall x :: x in after <==>
                  (x in es && x.next > now) || exists e :: e in fired && e.recurring && x == Bump(e))
  {
    hide Sorted, OneEach, Reinsert;
    var k := ExpiredCount(es, now);
    ExpiredMembers(es, now);
    ReinsertEntries(es[k..], es[..k]);
  }

  /** The timers fire by time, and those due at the same time by address. */
  lemma FiresInOrder(es: seq<Entry>, now: nat)
    requires Sorted(es) && OneEach(es)
    ensures var fired := ListExpired(es, now).0;
            forall i, j :: 0 <= i < j < |fired| ==>
              fired[i].next < fired[j].next || (fired[i].next == fired[j].next && fired[i].addr < fired[j].addr)
  {
    ListExpiredIsRight(es, now);
  }

  /** The expired timers and the others, as members of the two parts of the set. */
  lemma ExpiredMembers(es: seq<Entry>, now: nat)
    requires Sorted(es) && OneEach(es)
    ensures var k := ExpiredCount(es, now);
            && Sorted(es[..k]) && OneEach(es[..k]) && Sorted(es[k..]) && OneEach(es[k..])
            && (forall x :: x in es[..k] <==> x in es && x.next <= now)
            && (forall x :: x in es[k..] <==> x in es && x.next > now)
            && (forall x, y :: x in es[k..] && y in es[..k] ==> x.addr != y.addr)
  {
    hide Sorted, OneEach, ExpiredCount;
    ExpiredIsPrefix(es, now);
    var k := ExpiredCount(es, now);
    PartsInOrder(es, k);
    forall x | x in es
      ensures x.next > now ==> x in es[k..]
      ensures x.next <= now ==> x in es[..k]
    {
      var i :| 0 <= i < |es| && es[i] == x;
      assert i >= k ==> es[k..][i - k] == x;
      assert i < k ==> es[..k][i] == x;
    }
  }

  lemma PartsInOrder(es: seq<Entry>, k: nat)
    requires Sorted(es) && OneEach(es) && k <= |es|
    ensures Sorted(es[..k]) && OneEach(es[..k]) && Sorted(es[k..]) && OneEach(es[k..])
    ensures forall x, y :: x in es[k..] && y in es[..k] ==> x.addr != y.addr
  {
    forall x, y | x in es[k..] && y in es[..k]
      ensures x.addr != y.addr
    {
      var i :| k <= i < |es| && es[i] == x;
      var j :| 0 <= j < k && es[j] == y;
    }
  }

  // ------------------------------------------------------------------- lookups

  lemma {:induction false} LookupIsMembership(es: seq<Entry>, addr: nat)
    ensures match Lookup(es, addr)
            case None => forall x :: x in es ==> x.addr != addr
            case Some(e) => e in es && e.addr == addr
  {
    if es != [] {
      LookupIsMembership(es[1..], addr);
      assert es == [es[0]] + es[1..];
    }
  }

  lemma LookupIs(es: seq<Entry>, e: Entry)
    requires OneEach(es) && e in es
    ensures Lookup(es, e.addr) == Some(e)
  {
    LookupIsMembership(es, e.addr);
  }

  lemma {:induction false} RemoveEntries(es: seq<Entry>, addr: nat)
    requires Sorted(es) && OneEach(es)
    ensures var r := Remove(es, addr);
            Sorted(r) && OneEach(r) && forall x :: x in r <==> x in es && x.addr != addr
  {
    if es != [] {
      assert forall x :: x in es <==> x == es[0] || x in es[1..];
      if es[0].addr != addr {
        RemoveEntries(es[1..], addr);
      }
    }
  }

  lemma {:induction false} InsertIsSplice(es: seq<Entry>, e: Entry, i: nat)
    requires i <= |es|
    requires forall j :: 0 <= j < i ==> Before(es[j], e)
    requires i < |es| ==> Before(e, es[i])
    ensures Insert(es, e) == es[..i] + [e] + es[i..]
  {
    if i > 0 {
      InsertIsSplice(es[1..], e, i - 1);
      assert es[1..][..i - 1] == es[1..i];
    }
  }

  lemma {:induction false} RemoveNothing(es: seq<Entry>, addr: nat)
    requires Lookup(es, addr) == None
    ensures Remove(es, addr) == es
  {
    if es != [] { RemoveNothing(es[1..], addr); }
  }

  lemma {:induction false} RemoveIsSplice(es: seq<Entry>, i: nat)
    requires i < |es| && OneEach(es)
    ensures Remove(es, es[i].addr) == es[..i] + es[i + 1..]
  {
    if i > 0 {
      RemoveIsSplice(es[1..], i - 1);
      assert es[1..][..i - 1] == es[1..i];
    }
  }
}
