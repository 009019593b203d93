/**
  The fixed-window rate limiter
  (apps/backend/src/modules/gateway/application/gateway.rate-limit.ts:20-57).
 */
module RateLimits {
  type Key = string

  datatype Window = Window(startedAt: int, count: nat)

  datatype Request = Request(key: Key, now: int)

  function WindowFor(windows: map<Key, Window>, windowMs: int, r: Request): Window {
    if r.key !in windows || r.now - windows[r.key].startedAt >= windowMs then Window(r.now, 1)
    else windows[r.key].(count := windows[r.key].count + 1)
  }

  class RateLimitService {
    const limit: int
    const windowMs: int
    var windows: map<Key, Window>

    constructor (limit: int, windowMs: int)
      ensures this.limit == limit && this.windowMs == windowMs && windows == map[]
    {
      this.limit, this.windowMs := limit, windowMs;
      windows := map[];
    }

    /** False for the HTTP 429; a refused request is counted as well. */
    method Check(key: Key, now: int) returns (ok: bool)
      modifies `windows
      ensures windows == old(windows)[key := WindowFor(old(windows), windowMs, Request(key, now))]
      ensures ok <==> WindowFor(old(windows), windowMs, Request(key, now)).count <= limit
    {
      var window := if key !in windows || now - windows[key].startedAt >= windowMs then Window(now, 0) else windows[key];
      window := window.(count := window.count + 1);
      windows := windows[key := window];
      ok := !(window.count > limit);
    }
  }

  /** The windows after a list of requests. */
  function After(windowMs: int, requests: seq<Request>): map<Key, Window> {
    if requests == [] then map[]
    else
      var before, r := After(windowMs, requests[..|requests| - 1]), requests[|requests| - 1];
      before[r.key := WindowFor(before, windowMs, r)]
  }

  /** Whether the last request is accepted. */
  predicate LastAccepted(limit: int, windowMs: int, requests: seq<Request>)
    requires requests != []
  {
    After(windowMs, requests)[requests[|requests| - 1].key].count <= limit
  }

  /** How many requests of the key in [from, from + windowMs) were accepted. */
  function AcceptedIn(limit: int, windowMs: int, requests: seq<Request>, key: Key, from: int): nat {
    if requests == [] then 0
    else
      var r := requests[|requests| - 1];
      AcceptedIn(limit, windowMs, requests[..|requests| - 1], key, from)
      + if r.key == key && from <= r.now < from + windowMs && LastAccepted(limit, windowMs, requests) then 1 else 0
  }

  /** The clock as the requests of one key see it. */
  predicate ClockNeverFalls(requests: seq<Request>, key: Key) {
    forall i, j :: 0 <= i < j < |requests| && requests[i].key == key && requests[j].key == key ==>
      requests[i].now <= requests[j].now
  }

  function Min(a: int, b: int): int {
    if a <= b then a else b
  }

  /** The most that any interval as long as the window sees accepted. */
  function Bound(limit: int, windowMs: int): nat {
    if limit < 1 || windowMs < 1 then 0
    else if windowMs == 1 then limit
    else 2 * limit - 1
  }

  /**
    What the current window allows to have been accepted. A window that opened before
    the interval spent at least one acceptance outside it, and is over when the interval
    begins if it lasts a single tick; one that opened inside follows at most one such window.
   */
  ghost predicate Bounded(limit: int, windowMs: int, windows: map<Key, Window>, key: Key, from: int, accepted: nat, latest: int) {
    if key !in windows then accepted == 0
    else
      var w := windows[key];
      var earlier := if windowMs == 1 then 0 else limit - 1;
      && w.startedAt <= latest
      && w.count >= 1
      && (latest < from ==> accepted == 0)
      && (w.startedAt < from ==> accepted <= Min(earlier, w.count - 1))
      && (from <= w.startedAt < from + windowMs ==> accepted <= earlier + Min(w.count, limit))
      && accepted <= earlier + limit
  }

  lemma RequestKeepsBound(limit: int, windowMs: int, windows: map<Key, Window>, r: Request, key: Key, from: int,
                          accepted: nat, latest: int)
    requires limit >= 1 && windowMs >= 1 && Bounded(limit, windowMs, windows, key, from, accepted, latest)
    requires r.key == key ==> latest <= r.now
    ensures var w := WindowFor(windows, windowMs, r);
            var counted := r.key == key && from <= r.now < from + windowMs && w.count <= limit;
            Bounded(limit, windowMs, windows[r.key := w], key, from, accepted + (if counted then 1 else 0),
                    if r.key == key then r.now else latest)
  {
  }

  /** `latest` is any time no earlier than the key's last request. */
  lemma {:induction false} RunKeepsBound(limit: int, windowMs: int, requests: seq<Request>, key: Key, from: int, latest: int)
    requires limit >= 1 && windowMs >= 1 && ClockNeverFalls(requests, key)
    requires forall i :: 0 <= i < |requests| && requests[i].key == key ==> requests[i].now <= latest
    ensures Bounded(limit, windowMs, After(windowMs, requests), key, from, AcceptedIn(limit, windowMs, requests, key, from), latest)
  {
    if requests != [] {
      var init, r := requests[..|requests| - 1], requests[|requests| - 1];
      var before := if r.key == key then r.now else latest;
      RunKeepsBound(limit, windowMs, init, key, from, before);
      RequestKeepsBound(limit, windowMs, After(windowMs, init), r, key, from, AcceptedIn(limit, windowMs, init, key, from), before);
    }
  }

  lemma {:induction false} NothingPasses(limit: int, windowMs: int, requests: seq<Request>, key: Key, from: int)
    requires limit < 1 || windowMs < 1
    ensures AcceptedIn(limit, windowMs, requests, key, from) == 0
    ensures forall k :: k in After(windowMs, requests) ==> After(windowMs, requests)[k].count >= 1
  {
    if requests != [] {
      NothingPasses(limit, windowMs, requests[..|requests| - 1], key, from);
    }
  }

  /** The last time one of the key's requests was made. */
  function Latest(requests: seq<Request>, key: Key): (t: int)
    ensures forall i :: 0 <= i < |requests| && requests[i].key == key ==> requests[i].now <= t
  {
    if requests == [] then 0
    else
      var t, r := Latest(requests[..|requests| - 1], key), requests[|requests| - 1];
      if r.key == key && r.now > t then r.now else t
  }

  /**
    With a clock that never falls between the key's own requests, any half-open interval
    as long as the window sees fewer than twice the limit accepted, and no more than the
    limit where the window is a single tick, whatever other keys do.
   */
  lemma FewerThanTwiceTheLimit(limit: int, windowMs: int, requests: seq<Request>, key: Key, from: int)
    requires ClockNeverFalls(requests, key)
    ensures AcceptedIn(limit, windowMs, requests, key, from) <= Bound(limit, windowMs)
  {
    if limit >= 1 && windowMs >= 1 {
      RunKeepsBound(limit, windowMs, requests, key, from, Latest(requests, key));
    } else {
      NothingPasses(limit, windowMs, requests, key, from);
    }
  }

  // ---- What a window counts ----

  /** How many of the requests from place j on are the key's. */
  function CountFrom(requests: seq<Request>, key: Key, j: nat): nat {
    if |requests| <= j then 0
    else CountFrom(requests[..|requests| - 1], key, j) + if requests[|requests| - 1].key == key then 1 else 0
  }

  /** The request at place j opened the key's current window: it was the key's first, or the window before was over. */
  ghost predicate Opened(windowMs: int, requests: seq<Request>, key: Key, j: nat) {
    && j < |requests| && requests[j].key == key
    && (key in After(windowMs, requests[..j]) ==> requests[j].now >= After(windowMs, requests[..j])[key].startedAt + windowMs)
    && (forall i :: j < i < |requests| && requests[i].key == key ==> requests[i].now < requests[j].now + windowMs)
  }

  /**
    A key's window, for any clock: it began with the request that opened it, and counts
    the key's requests since, refused ones too; so a request is accepted if and only if
    it is among the first `limit` of its window.
   */
  lemma {:induction false} WindowsCountExactly(windowMs: int, requests: seq<Request>, key: Key)
    ensures key in After(windowMs, requests) <==> exists i :: 0 <= i < |requests| && requests[i].key == key
    ensures key in After(windowMs, requests) ==>
              exists j: nat :: Opened(windowMs, requests, key, j)
                && After(windowMs, requests)[key] == Window(requests[j].now, CountFrom(requests, key, j))
  {
    if requests != [] {
      var n := |requests| - 1;
      var init, r := requests[..n], requests[n];
      WindowsCountExactly(windowMs, init, key);
      if key in After(windowMs, init) {
        var i :| 0 <= i < n && init[i].key == key;
        assert requests[i].key == key;
        var j: nat :| Opened(windowMs, init, key, j) && After(windowMs, init)[key] == Window(init[j].now, CountFrom(init, key, j));
        assert init[..j] == requests[..j] && init[j] == requests[j];
        if r.key != key || r.now - init[j].now < windowMs {
          StillOpen(windowMs, requests, key, j);
        } else {
          NewlyOpened(windowMs, requests, key);
        }
      } else if r.key == key {
        NewlyOpened(windowMs, requests, key);
      }
    }
  }

  lemma StillOpen(windowMs: int, requests: seq<Request>, key: Key, j: nat)
    requires requests != [] && j < |requests| - 1 && Opened(windowMs, requests[..|requests| - 1], key, j)
    requires var r := requests[|requests| - 1]; r.key != key || r.now < requests[j].now + windowMs
    ensures Opened(windowMs, requests, key, j)
  {
    var init := requests[..|requests| - 1];
    assert init[..j] == requests[..j];
    assert forall i :: j < i < |init| ==> init[i] == requests[i];
  }

  lemma NewlyOpened(windowMs: int, requests: seq<Request>, key: Key)
    requires requests != [] && requests[|requests| - 1].key == key
    requires var before, r := After(windowMs, requests[..|requests| - 1]), requests[|requests| - 1];
             key in before ==> r.now - before[key].startedAt >= windowMs
    ensures Opened(windowMs, requests, key, |requests| - 1) && CountFrom(requests, key, |requests| - 1) == 1
    ensures After(windowMs, requests)[key] == Window(requests[|requests| - 1].now, 1)
  {
  }

  // ---- The bound is reached, and needs the clock ----

  lemma OneMore(limit: int, windowMs: int, requests: seq<Request>, r: Request, key: Key, from: int)
    ensures After(windowMs, requests + [r]) == After(windowMs, requests)[r.key := WindowFor(After(windowMs, requests), windowMs, r)]
    ensures AcceptedIn(limit, windowMs, requests + [r], key, from)
            == AcceptedIn(limit, windowMs, requests, key, from)
               + if r.key == key && from <= r.now < from + windowMs
                    && WindowFor(After(windowMs, requests), windowMs, r).count <= limit then 1 else 0
  {
    assert (requests + [r])[..|requests|] == requests;
  }

  function Repeat(r: Request, n: nat): seq<Request> {
    seq(n, i => r)
  }

  lemma {:induction false} RepeatWithinWindow(limit: int, windowMs: int, requests: seq<Request>, r: Request, n: nat, from: int)
    requires r.key in After(windowMs, requests) && r.now - After(windowMs, requests)[r.key].startedAt < windowMs
    requires After(windowMs, requests)[r.key].count + n <= limit && from <= r.now < from + windowMs
    ensures After(windowMs, requests + Repeat(r, n))
            == After(windowMs, requests)[r.key := Window(After(windowMs, requests)[r.key].startedAt, After(windowMs, requests)[r.key].count + n)]
    ensures AcceptedIn(limit, windowMs, requests + Repeat(r, n), r.key, from) == AcceptedIn(limit, windowMs, requests, r.key, from) + n
  {
    hide After, AcceptedIn;
    if n == 0 {
      assert requests + Repeat(r, n) == requests;
    } else {
      RepeatWithinWindow(limit, windowMs, requests, r, n - 1, from);
      OneMore(limit, windowMs, requests + Repeat(r, n - 1), r, r.key, from);
      assert requests + Repeat(r, n) == requests + Repeat(r, n - 1) + [r];
    }
  }

  /** One request, then limit - 1 at the very end of its window, then limit at the start of the next. */
  function Burst(key: Key, limit: int, windowMs: int): seq<Request> {
    if limit < 1 || windowMs < 1 then []
    else if windowMs == 1 then [Request(key, 1)] + Repeat(Request(key, 1), limit - 1)
    else
      [Request(key, 0)] + Repeat(Request(key, windowMs - 1), limit - 1)
      + [Request(key, windowMs)] + Repeat(Request(key, windowMs), limit - 1)
  }

  lemma BurstClock(key: Key, limit: int, windowMs: int)
    ensures ClockNeverFalls(Burst(key, limit, windowMs), key)
  {
  }

  /** For every limit and window there is a run that reaches the bound. */
  lemma BoundIsReached(key: Key, limit: int, windowMs: int)
    ensures ClockNeverFalls(Burst(key, limit, windowMs), key)
    ensures AcceptedIn(limit, windowMs, Burst(key, limit, windowMs), key, 1) == Bound(limit, windowMs)
  {
    BurstClock(key, limit, windowMs);
    var none: seq<Request> := [];
    if limit < 1 || windowMs < 1 {
    } else if windowMs == 1 {
      var first := none + [Request(key, 1)];
      OneMore(limit, windowMs, none, Request(key, 1), key, 1);
      RepeatWithinWindow(limit, windowMs, first, Request(key, 1), limit - 1, 1);
      assert Burst(key, limit, windowMs) == first + Repeat(Request(key, 1), limit - 1);
    } else {
      var first := none + [Request(key, 0)];
      OneMore(limit, windowMs, none, Request(key, 0), key, 1);
      var late := Request(key, windowMs - 1);
      RepeatWithinWindow(limit, windowMs, first, late, limit - 1, 1);
      var one := first + Repeat(late, limit - 1);
      var next := Request(key, windowMs);
      OneMore(limit, windowMs, one, next, key, 1);
      RepeatWithinWindow(limit, windowMs, one + [next], next, limit - 1, 1);
      assert Burst(key, limit, windowMs) == one + [next] + Repeat(next, limit - 1);
    }
  }

  // ---- Where the clock may fall ----

  /** Each round opens a new window at its time and then spends a second request of it at time 0. */
  function Rounds(key: Key, windowMs: int, n: nat): seq<Request> {
    if n == 0 then [Request(key, 0)]
    else Rounds(key, windowMs, n - 1) + [Request(key, 0)] + [Request(key, n * windowMs)]
  }

  /** With a limit of two or more a falling clock lets any number through in one interval. */
  lemma {:induction false} FallingClockBreaksTheBound(key: Key, limit: int, windowMs: int, n: nat)
    requires limit >= 2 && windowMs >= 1
    ensures key in After(windowMs, Rounds(key, windowMs, n))
            && After(windowMs, Rounds(key, windowMs, n))[key] == Window(n * windowMs, 1)
    ensures AcceptedIn(limit, windowMs, Rounds(key, windowMs, n), key, 0) == n + 1
  {
    hide After, AcceptedIn;
    if n == 0 {
      var none: seq<Request> := [];
      NothingYet(limit, windowMs, key);
      OneMore(limit, windowMs, none, Request(key, 0), key, 0);
      assert Rounds(key, windowMs, 0) == none + [Request(key, 0)];
    } else {
      var before := Rounds(key, windowMs, n - 1);
      FallingClockBreaksTheBound(key, limit, windowMs, n - 1);
      OneMore(limit, windowMs, before, Request(key, 0), key, 0);
      OneMore(limit, windowMs, before + [Request(key, 0)], Request(key, n * windowMs), key, 0);
      NextRound(n, windowMs);
    }
  }

  lemma NothingYet(limit: int, windowMs: int, key: Key)
    ensures After(windowMs, []) == map[] && AcceptedIn(limit, windowMs, [], key, 0) == 0
  {
  }

  lemma NextRound(n: nat, windowMs: int)
    requires n >= 1 && windowMs >= 1
    ensures (n - 1) * windowMs >= 0 && n * windowMs - (n - 1) * windowMs == windowMs && n * windowMs >= windowMs
  {
  }

  /** With a limit of one every accepted request opens a window, so no clock can break the bound. */
  lemma {:induction false} LimitOneNeedsNoClock(windowMs: int, requests: seq<Request>, key: Key, from: int)
    requires windowMs >= 1
    ensures AcceptedIn(1, windowMs, requests, key, from) <= Bound(1, windowMs)
    ensures key in After(windowMs, requests) ==>
              After(windowMs, requests)[key].count >= 1
              && (After(windowMs, requests)[key].startedAt < from ==> AcceptedIn(1, windowMs, requests, key, from) == 0)
    ensures key !in After(windowMs, requests) ==> AcceptedIn(1, windowMs, requests, key, from) == 0
  {
    if requests != [] {
      LimitOneNeedsNoClock(windowMs, requests[..|requests| - 1], key, from);
    }
  }
}
