/**
 The device limit, stated over the history of a process: which users were listed, and which
 connection attempts were made when, from where and with what outcome. No address table, no
 pruning. The store's table of last-seen times is proved against this history.
 */
module DeviceLimit {
  import opened Panel
  import opened Wrappers

  datatype Event =
    | Listed(user: User)
    | Attempt(id: Int64, source: string, time: int, admitted: bool)

  type History = seq<Event>

  function Init(h: History): History
    requires h != []
  {
    h[..|h| - 1]
  }

  function Last(h: History): Event
    requires h != []
  {
    h[|h| - 1]
  }

  /** The device limit most recently listed for a user; None if it never was listed. */
  function Limit(h: History, id: Int64): Option<int> {
    if h == [] then None
    else if Last(h).Listed? && Last(h).user.id == id then Some(Last(h).user.deviceLimit)
    else Limit(Init(h), id)
  }

  predicate AdmitsWithin(e: Event, id: Int64, lo: int, hi: int) {
    e.Attempt? && e.id == id && e.admitted && e.source != "" && lo <= e.time <= hi
  }

  /** The distinct non-empty sources a user was admitted from in the closed window [lo, hi]. */
  function Within(h: History, id: Int64, lo: int, hi: int): set<string> {
    if h == [] then {}
    else Within(Init(h), id, lo, hi) + (if AdmitsWithin(Last(h), id, lo, hi) then {Last(h).source} else {})
  }

  /** Whether an attempt must be admitted after history h. */
  predicate Admits(h: History, id: Int64, source: string, now: int, ttl: nat) {
    match Limit(h, id)
    case None => false
    case Some(limit) =>
      || source == ""
      || limit <= 0
      || source in Within(h, id, now - ttl, now)
      || |Within(h, id, now - ttl, now)| < limit
  }

  /** No attempt of the user is later than the given time. */
  predicate NotAfter(h: History, id: Int64, now: int) {
    forall i | 0 <= i < |h| && h[i].Attempt? && h[i].id == id :: h[i].time <= now
  }

  /** A history the daemon may produce: per-user times never step back, outcomes follow the rule. */
  predicate Lawful(h: History, ttl: nat) {
    if h == [] then true
    else
      && Lawful(Init(h), ttl)
      && match Last(h)
         case Listed(_) => true
         case Attempt(id, source, time, admitted) =>
           && NotAfter(Init(h), id, time)
           && admitted == Admits(Init(h), id, source, time, ttl)
  }

  lemma {:induction false} WithinIs(h: History, id: Int64, lo: int, hi: int, s: string)
    ensures s in Within(h, id, lo, hi) <==> exists i :: 0 <= i < |h| && AdmitsWithin(h[i], id, lo, hi) && h[i].source == s
  {
    if h != [] {
      WithinIs(Init(h), id, lo, hi, s);
      if s in Within(Init(h), id, lo, hi) {
        var i :| 0 <= i < |Init(h)| && AdmitsWithin(Init(h)[i], id, lo, hi) && Init(h)[i].source == s;
        assert h[i] == Init(h)[i];
      }
      if i :| 0 <= i < |h| && AdmitsWithin(h[i], id, lo, hi) && h[i].source == s {
        if i < |h| - 1 {
          assert Init(h)[i] == h[i];
        }
      }
    }
  }

  lemma {:induction false} WithinMonotone(h: History, id: Int64, lo: int, hi: int, lo': int, hi': int)
    requires lo' <= lo && hi <= hi'
    ensures Within(h, id, lo, hi) <= Within(h, id, lo', hi')
  {
    if h != [] {
      WithinMonotone(Init(h), id, lo, hi, lo', hi');
    }
  }

  lemma SubsetSize<T>(a: set<T>, b: set<T>)
    requires a <= b
    ensures |a| <= |b|
  {
    assert b == a + (b - a);
  }

  /** Once no attempt is later than a time, moving the window's end past it adds nothing. */
  lemma {:induction false} WithinUpTo(h: History, id: Int64, lo: int, hi: int, hi': int)
    requires NotAfter(h, id, hi) && hi <= hi'
    ensures Within(h, id, lo, hi) == Within(h, id, lo, hi')
  {
    if h != [] {
      assert NotAfter(Init(h), id, hi) by {
        assert forall i | 0 <= i < |Init(h)| :: Init(h)[i] == h[i];
      }
      WithinUpTo(Init(h), id, lo, hi, hi');
      assert h[|h| - 1] == Last(h);
    }
  }

  /** Every limit ever listed for the user is positive and at most the bound. */
  predicate LimitsAtMost(h: History, id: Int64, bound: int) {
    forall i | 0 <= i < |h| && h[i].Listed? && h[i].user.id == id :: 0 < h[i].user.deviceLimit <= bound
  }

  lemma {:induction false} CurrentLimitAtMost(h: History, id: Int64, bound: int)
    requires LimitsAtMost(h, id, bound) && Limit(h, id).Some?
    ensures 0 < Limit(h, id).value <= bound
  {
    assert h[|h| - 1] == Last(h);
    if !(Last(h).Listed? && Last(h).user.id == id) {
      LimitsAtMostInit(h, id, bound);
      CurrentLimitAtMost(Init(h), id, bound);
    }
  }

  lemma LimitsAtMostInit(h: History, id: Int64, bound: int)
    requires h != [] && LimitsAtMost(h, id, bound)
    ensures LimitsAtMost(Init(h), id, bound)
  {
    assert forall i | 0 <= i < |Init(h)| :: Init(h)[i] == h[i];
  }

  lemma NotAfterInit(h: History, id: Int64, now: int)
    requires h != [] && NotAfter(h, id, now)
    ensures NotAfter(Init(h), id, now)
  {
    assert forall i | 0 <= i < |Init(h)| :: Init(h)[i] == h[i];
  }

  lemma NotAfterLast(h: History)
    requires h != [] && Last(h).Attempt? && NotAfter(Init(h), Last(h).id, Last(h).time)
    ensures NotAfter(h, Last(h).id, Last(h).time)
  {
    assert forall i | 0 <= i < |Init(h)| :: Init(h)[i] == h[i];
  }

  /** An admitted attempt leaves the window that ends at it within the bound. */
  lemma AdmissionKeepsBound(h: History, id: Int64, source: string, now: int, ttl: nat, bound: nat)
    requires Admits(h, id, source, now, ttl) && source != "" && LimitsAtMost(h, id, bound)
    requires |Within(h, id, now - ttl, now)| <= bound
    ensures |Within(h, id, now - ttl, now) + {source}| <= bound
  {
    CurrentLimitAtMost(h, id, bound);
    var before := Within(h, id, now - ttl, now);
    if source in before {
      assert before + {source} == before;
    }
  }

  /** Every source counted now was already in the window that ended at the latest admitted attempt. */
  lemma CountedByLatest(h: History, id: Int64, now: int, ttl: nat)
    requires h != [] && AdmitsWithin(Last(h), id, now - ttl, now) && NotAfter(Init(h), id, Last(h).time)
    ensures Within(h, id, now - ttl, now) <= Within(Init(h), id, Last(h).time - ttl, Last(h).time) + {Last(h).source}
  {
    var t := Last(h).time;
    WithinUpTo(Init(h), id, now - ttl, t, now);
    WithinMonotone(Init(h), id, now - ttl, t, t - ttl, t);
  }

  lemma LatestAdmissionBounded(h: History, id: Int64, now: int, ttl: nat, bound: nat)
    requires h != [] && Lawful(h, ttl) && LimitsAtMost(Init(h), id, bound)
    requires AdmitsWithin(Last(h), id, now - ttl, now)
    requires |Within(Init(h), id, Last(h).time - ttl, Last(h).time)| <= bound
    ensures |Within(h, id, now - ttl, now)| <= bound
  {
    var e := Last(h);
    AdmissionKeepsBound(Init(h), id, e.source, e.time, ttl, bound);
    CountedByLatest(h, id, now, ttl);
    SubsetSize(Within(h, id, now - ttl, now), Within(Init(h), id, e.time - ttl, e.time) + {e.source});
  }

  /** At no moment are more sources than the bound still inside the trailing window. */
  lemma {:induction false} TrailingWindowBounded(h: History, id: Int64, now: int, ttl: nat, bound: nat)
    requires Lawful(h, ttl) && LimitsAtMost(h, id, bound) && NotAfter(h, id, now)
    ensures |Within(h, id, now - ttl, now)| <= bound
  {
    if h != [] {
      LimitsAtMostInit(h, id, bound);
      NotAfterInit(h, id, now);
      if AdmitsWithin(Last(h), id, now - ttl, now) {
        TrailingWindowBounded(Init(h), id, Last(h).time, ttl, bound);
        LatestAdmissionBounded(h, id, now, ttl, bound);
      } else {
        TrailingWindowBounded(Init(h), id, now, ttl, bound);
      }
    }
  }

  /**
   The device limit over a whole run: while every limit listed for a user is between 1 and the
   bound, no closed window as long as the TTL sees that user admitted from more sources than the
   bound, whatever the nodes the attempts arrive at.
   */
  lemma {:induction false} DeviceWindow(h: History, id: Int64, from: int, ttl: nat, bound: nat)
    requires Lawful(h, ttl) && LimitsAtMost(h, id, bound)
    ensures |Within(h, id, from, from + ttl)| <= bound
  {
    if h != [] {
      var e := Last(h);
      LimitsAtMostInit(h, id, bound);
      if AdmitsWithin(e, id, from, from + ttl) {
        NotAfterLast(h);
        TrailingWindowBounded(h, id, e.time, ttl, bound);
        WithinUpTo(h, id, from, e.time, from + ttl);
        WithinMonotone(h, id, from, e.time, e.time - ttl, e.time);
        SubsetSize(Within(h, id, from, from + ttl), Within(h, id, e.time - ttl, e.time));
      } else {
        DeviceWindow(Init(h), id, from, ttl, bound);
      }
    }
  }

  /** Source names of every length. */
  function Source(n: nat): string {
    seq(n + 1, _ => 'a')
  }

  lemma WithinSnoc(h: History, e: Event, id: Int64, lo: int, hi: int)
    ensures Within(h + [e], id, lo, hi) == Within(h, id, lo, hi) + (if AdmitsWithin(e, id, lo, hi) then {e.source} else {})
  {
    assert Init(h + [e]) == h && Last(h + [e]) == e;
  }

  lemma LawfulSnoc(h: History, e: Event, ttl: nat)
    requires Lawful(h, ttl) && e.Attempt? && NotAfter(h, e.id, e.time) && e.admitted == Admits(h, e.id, e.source, e.time, ttl)
    ensures Lawful(h + [e], ttl)
  {
    assert Init(h + [e]) == h && Last(h + [e]) == e;
  }

  lemma LimitSnoc(h: History, e: Event, id: Int64)
    requires e.Attempt?
    ensures Limit(h + [e], id) == Limit(h, id)
  {
    assert Init(h + [e]) == h && Last(h + [e]) == e;
  }

  /** A history of one listing. */
  lemma JustListed(user: User, lo: int, hi: int, ttl: nat)
    ensures Limit([Listed(user)], user.id) == Some(user.deviceLimit)
    ensures Within([Listed(user)], user.id, lo, hi) == {} && Lawful([Listed(user)], ttl)
  {
    var h: History := [Listed(user)];
    assert Init(h) == [] && Last(h) == Listed(user);
  }

  function Names(n: nat): set<string> {
    if n == 0 then {} else Names(n - 1) + {Source(n - 1)}
  }

  lemma {:induction false} NamesAre(n: nat, m: nat)
    ensures |Names(n)| == n && (m >= n ==> Source(m) !in Names(n))
  {
    if n > 0 {
      NamesAre(n - 1, n - 1);
      NamesAre(n - 1, m);
      assert m >= n ==> |Source(m)| != |Source(n - 1)|;
    }
  }

  /** A history in which the user is listed once, and admitted from n different sources at time 0. */
  ghost predicate IsFilled(h: History, user: User, n: nat, ttl: nat) {
    && Lawful(h, ttl) && Limit(h, user.id) == Some(user.deviceLimit) && NotAfter(h, user.id, 0)
    && LimitsAtMost(h, user.id, user.deviceLimit)
    && forall lo, hi :: Within(h, user.id, lo, hi) == if lo <= 0 <= hi then Names(n) else {}
  }

  /** While there is room a new source is admitted. */
  lemma RoomAdmits(h: History, user: User, n: nat, now: int, ttl: nat)
    requires Lawful(h, ttl) && Limit(h, user.id) == Some(user.deviceLimit) && NotAfter(h, user.id, now)
    requires |Within(h, user.id, now - ttl, now)| < user.deviceLimit
    ensures Lawful(h + [Attempt(user.id, Source(n), now, true)], ttl)
  {
    LawfulSnoc(h, Attempt(user.id, Source(n), now, true), ttl);
  }

  lemma FillOne(h: History, user: User, n: nat, ttl: nat) returns (longer: History)
    requires IsFilled(h, user, n, ttl) && n < user.deviceLimit
    ensures IsFilled(longer, user, n + 1, ttl)
  {
    var e := Attempt(user.id, Source(n), 0, true);
    longer := h + [e];
    NamesAre(n, n);
    RoomAdmits(h, user, n, 0, ttl);
    LimitSnoc(h, e, user.id);
    forall lo, hi ensures Within(longer, user.id, lo, hi) == if lo <= 0 <= hi then Names(n + 1) else {} {
      WithinSnoc(h, e, user.id, lo, hi);
    }
  }

  lemma {:induction false} Fill(user: User, n: nat, ttl: nat) returns (h: History)
    requires 1 <= user.deviceLimit && n <= user.deviceLimit
    ensures IsFilled(h, user, n, ttl)
  {
    if n == 0 {
      h := [Listed(user)];
      forall lo, hi ensures Within(h, user.id, lo, hi) == {} {
        JustListed(user, lo, hi, ttl);
      }
      JustListed(user, 0, 0, ttl);
    } else {
      h := Fill(user, n - 1, ttl);
      h := FillOne(h, user, n - 1, ttl);
    }
  }

  /** Once the sources have expired another takes their place, and a window that reaches both exceeds the limit. */
  lemma LongerWindowExceeds(user: User, ttl: nat, window: nat) returns (h: History)
    requires user.deviceLimit >= 1 && window > ttl
    ensures Lawful(h, ttl) && LimitsAtMost(h, user.id, user.deviceLimit)
    ensures |Within(h, user.id, 0, window)| == user.deviceLimit + 1
  {
    var n := user.deviceLimit;
    h := Fill(user, n, ttl);
    NamesAre(n, n);
    assert Within(h, user.id, 1, ttl + 1) == {};
    RoomAdmits(h, user, n, ttl + 1, ttl);
    WithinSnoc(h, Attempt(user.id, Source(n), ttl + 1, true), user.id, 0, window);
    h := h + [Attempt(user.id, Source(n), ttl + 1, true)];
  }

  predicate Bounded(h: History, id: Int64, from: int, window: nat, bound: nat) {
    |Within(h, id, from, from + window)| <= bound
  }

  /**
   The bound on a window holds in every history the daemon may produce, for every limit, exactly if the window
   is no longer than the TTL.
   */
  lemma DeviceWindowIff(id: Int64, ttl: nat, window: nat, bound: nat)
    requires bound >= 1
    ensures (forall h: History, from: int :: Lawful(h, ttl) && LimitsAtMost(h, id, bound) ==> Bounded(h, id, from, window, bound))
            <==> window <= ttl
  {
    if window <= ttl {
      forall h: History, from: int | Lawful(h, ttl) && LimitsAtMost(h, id, bound) ensures Bounded(h, id, from, window, bound) {
        DeviceWindow(h, id, from, ttl, bound);
        WithinMonotone(h, id, from, from + window, from, from + ttl);
        SubsetSize(Within(h, id, from, from + window), Within(h, id, from, from + ttl));
      }
    } else {
      var h := LongerWindowExceeds(User(id, "", bound), ttl, window);
      assert !Bounded(h, id, 0, window, bound);
    }
  }

  /** Event i is the one that lists a user last. */
  ghost predicate ListedLast(h: History, id: Int64, i: nat) {
    && i < |h| && h[i].Listed? && h[i].user.id == id
    && forall j | i < j < |h| :: !(h[j].Listed? && h[j].user.id == id)
  }

  lemma {:induction false} LimitIsLastListed(h: History, id: Int64)
    ensures Limit(h, id).Some? <==> exists i: nat :: ListedLast(h, id, i)
    ensures forall i: nat | ListedLast(h, id, i) :: Limit(h, id) == Some(h[i].user.deviceLimit)
  {
    if h != [] {
      var n := |h| - 1;
      LimitIsLastListed(Init(h), id);
      assert h[n] == Last(h) && forall i | 0 <= i < n :: Init(h)[i] == h[i];
      if Last(h).Listed? && Last(h).user.id == id {
        assert ListedLast(h, id, n);
      } else {
        assert forall i: nat :: ListedLast(h, id, i) <==> ListedLast(Init(h), id, i);
      }
    }
  }

  /** The distinct sources of a user's admitted attempts in a closed window, read off the events. */
  ghost function Sources(h: History, id: Int64, from: int, to: int): set<string> {
    set i | 0 <= i < |h| && h[i].Attempt? && h[i].id == id && h[i].admitted && h[i].source != "" && from <= h[i].time <= to
      :: h[i].source
  }

  lemma WithinIsSources(h: History, id: Int64, from: int, to: int)
    ensures Within(h, id, from, to) == Sources(h, id, from, to)
  {
    forall s ensures s in Within(h, id, from, to) <==> s in Sources(h, id, from, to) {
      WithinIs(h, id, from, to, s);
    }
  }

  /**
   The rule of admission, over the events alone: the user was listed, and the attempt has no source, or the limit
   listed last is none, or the source was admitted within the TTL, or fewer sources than the limit were.
   */
  lemma AdmitsIff(h: History, id: Int64, source: string, now: int, ttl: nat)
    ensures Admits(h, id, source, now, ttl)
            <==> exists i: nat :: ListedLast(h, id, i)
                                  && (|| source == "" || h[i].user.deviceLimit <= 0
                                      || source in Sources(h, id, now - ttl, now)
                                      || |Sources(h, id, now - ttl, now)| < h[i].user.deviceLimit)
  {
    LimitIsLastListed(h, id);
    WithinIsSources(h, id, now - ttl, now);
    if Limit(h, id).Some? {
      var i: nat :| ListedLast(h, id, i);
    }
  }
}
