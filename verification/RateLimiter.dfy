/** The sliding one-second rate limiter of the mesh router and of LAN discovery
    (src/bitchat/mesh/router.py, src/bitchat/network/discovery.py). */
module RateLimiter {
  import opened Wrappers

  /** Times of the accepted calls, by sender; the source drops old ones when it looks at them. */
  type Stamps<!K> = map<K, seq<real>>

  /** `limit` calls a second; senders are pruned when there are more than `pruneAbove` of them. */
  datatype Limit = Limit(limit: int, pruneAbove: int)

  const ROUTER_PRUNE_ABOVE := 1000
  const DISCOVERY_PRUNE_ABOVE := 256
  const WINDOW := 1.0

  function Newest(ts: seq<real>): (m: real)
    requires ts != []
    ensures m in ts && forall t :: t in ts ==> t <= m
  {
    if |ts| == 1 then ts[0]
    else
      var m := Newest(ts[1..]);
      assert forall t :: t in ts ==> t == ts[0] || t in ts[1..];
      if ts[0] > m then ts[0] else m
  }

  /** `prune_rate_limiter` */
  function PruneStamps<K>(m: Stamps<K>, maxAge: real, now: real): Stamps<K> {
    map k | k in m && m[k] != [] && now - Newest(m[k]) <= maxAge :: m[k]
  }

  /** The timestamps not older than a second. */
  function Recent(ts: seq<real>, now: real): seq<real> {
    if ts == [] then []
    else (if now - ts[0] <= WINDOW then [ts[0]] else []) + Recent(ts[1..], now)
  }

  /** `is_rate_limited`: the new table, and true if the call is refused. */
  function Ask<K>(m: Stamps<K>, l: Limit, k: K, now: real): (Stamps<K>, bool) {
    AskPruned(if |m| > l.pruneAbove then PruneStamps(m, WINDOW, now) else m, l, k, now)
  }

  /** The rest of `is_rate_limited`, once the table has been pruned if it was too large. */
  function AskPruned<K>(m: Stamps<K>, l: Limit, k: K, now: real): (Stamps<K>, bool) {
    if k !in m then (m[k := [now]], false)
    else
      var valid := Recent(m[k], now);
      if valid == [] then (m[k := [now]], false)
      else if |valid| >= l.limit then (m[k := valid], true)
      else (m[k := valid + [now]], false)
  }

  // ---- the full history of one sender ----

  ghost predicate Ascending(h: seq<real>) {
    forall i, j :: 0 <= i < j < |h| ==> h[i] <= h[j]
  }

  /** `ts` is the end of the history `h`, and all that is missing is older than a second. */
  ghost predicate Covers(ts: seq<real>, h: seq<real>, now: real) {
    && |ts| <= |h| && h[|h| - |ts|..] == ts
    && forall i :: 0 <= i < |h| - |ts| ==> now - h[i] > WINDOW
  }

  /** The limiter remembers of sender `k` what of its history still matters at time `now`. */
  ghost predicate Remembers<K>(m: Stamps<K>, k: K, h: seq<real>, now: real) {
    && Ascending(h) && (forall i :: 0 <= i < |h| ==> h[i] <= now)
    && Covers(if k in m then m[k] else [], h, now)
  }

  /** Any `n` + 1 accepted calls in a row span more than a second. */
  ghost predicate Spread(h: seq<real>, n: nat) {
    forall j :: n <= j < |h| ==> h[j] - h[j - n] > WINDOW
  }

  /** The bound in force: the first call of a quiet sender is let through even under a limit of zero. */
  function Bound(l: Limit): nat {
    if l.limit >= 1 then l.limit else 1
  }

  lemma {:induction false} RecentCovers(ts: seq<real>, h: seq<real>, now: real)
    requires Covers(ts, h, now) && Ascending(h)
    ensures Covers(Recent(ts, now), h, now)
    ensures forall t :: t in Recent(ts, now) ==> now - t <= WINDOW
  {
    if ts != [] {
      var first := |h| - |ts|;
      assert h[first] == ts[0];
      if now - ts[0] <= WINDOW {
        AllRecent(ts, now);
      } else {
        assert h[first + 1..] == ts[1..];
        RecentCovers(ts[1..], h, now);
      }
    }
  }

  lemma {:induction false} AllRecent(ts: seq<real>, now: real)
    requires Ascending(ts) && (ts != [] ==> now - ts[0] <= WINDOW)
    ensures Recent(ts, now) == ts
  {
    if ts != [] {
      AllRecent(ts[1..], now);
    }
  }

  lemma CoversLater(ts: seq<real>, h: seq<real>, now: real, later: real)
    requires Covers(ts, h, now) && now <= later
    ensures Covers(ts, h, later)
  {}

  /** Pruning forgets nothing that matters. */
  lemma PruneRemembers<K>(m: Stamps<K>, k: K, h: seq<real>, now: real)
    requires Remembers(m, k, h, now)
    ensures Remembers(PruneStamps(m, WINDOW, now), k, h, now)
  {
    if k in m && k !in PruneStamps(m, WINDOW, now) {
      CoversNothing(m[k], h, now);
    }
  }

  /** If even the newest remembered time is older than a second, so is all of the history. */
  lemma CoversNothing(ts: seq<real>, h: seq<real>, now: real)
    requires Covers(ts, h, now) && (ts != [] ==> now - Newest(ts) > WINDOW)
    ensures Covers([], h, now)
  {
    forall i | 0 <= i < |h| ensures now - h[i] > WINDOW {
      if i >= |h| - |ts| {
        assert h[i] == ts[i - (|h| - |ts|)];
        assert h[i] in ts;
      }
    }
  }

  /** How many of the times are not older than a second. */
  function LastSecond(ts: seq<real>, now: real): nat {
    if ts == [] then 0 else (if now - ts[0] <= 1.0 then 1 else 0) + LastSecond(ts[1..], now)
  }

  lemma {:induction false} RecentExactly(ts: seq<real>, now: real)
    ensures |Recent(ts, now)| == LastSecond(ts, now)
  {
    if ts != [] {
      RecentExactly(ts[1..], now);
    }
  }

  // ---- one call ----

  /** What the table holds for a sender. */
  function TimesOf<K>(m: Stamps<K>, k: K): seq<real> {
    if k in m then m[k] else []
  }

  /** The limiter would let a call of `k` through. */
  predicate LetsIn<K>(m: Stamps<K>, l: Limit, k: K, now: real) {
    |Recent(TimesOf(m, k), now)| < Bound(l)
  }

  lemma {:induction false} NothingRecent(ts: seq<real>, now: real)
    requires forall i :: 0 <= i < |ts| ==> now - ts[i] > WINDOW
    ensures Recent(ts, now) == []
  {
    if ts != [] {
      NothingRecent(ts[1..], now);
    }
  }

  lemma PruneKeepsRecent<K>(m: Stamps<K>, k: K, now: real)
    ensures Recent(TimesOf(PruneStamps(m, WINDOW, now), k), now) == Recent(TimesOf(m, k), now)
  {
    if k in m && k !in PruneStamps(m, WINDOW, now) {
      assert forall i :: 0 <= i < |m[k]| ==> m[k][i] in m[k];
      NothingRecent(m[k], now);
    }
  }

  /** A call is refused exactly if the sender has used up its bound within the last second, whether or not the table is
      pruned on the way. */
  lemma RefusedExactly<K>(m: Stamps<K>, l: Limit, k: K, now: real)
    ensures Ask(m, l, k, now).1 <==> !LetsIn(m, l, k, now)
    ensures Ask(m, l, k, now).1 <==> LastSecond(TimesOf(m, k), now) >= (if l.limit >= 1 then l.limit else 1)
  {
    RecentExactly(TimesOf(m, k), now);
    PruneKeepsRecent(m, k, now);
  }

  /** As time goes by, what counts against a sender grows less. */
  lemma {:induction false} RecentShrinks(ts: seq<real>, start: real, now: real)
    requires start <= now
    ensures |Recent(ts, now)| <= |Recent(ts, start)|
  {
    if ts != [] {
      RecentShrinks(ts[1..], start, now);
    }
  }

  /** The history of sender `k` after a call: longer by one if the call was its own and accepted. */
  function Extended<K(==)>(h: seq<real>, k: K, asker: K, refused: bool, now: real): seq<real> {
    if asker == k && !refused then h + [now] else h
  }

  lemma AskRemembers<K>(m: Stamps<K>, l: Limit, k: K, h: seq<real>, asker: K, before: real, now: real)
    requires Remembers(m, k, h, before) && before <= now && Spread(h, Bound(l))
    ensures var (m', refused) := Ask(m, l, asker, now);
            && Remembers(m', k, Extended(h, k, asker, refused, now), now)
            && Spread(Extended(h, k, asker, refused, now), Bound(l))
            && (asker == k ==> (refused <==> |Recent(h, now)| >= Bound(l)))
  {
    CoversLater(if k in m then m[k] else [], h, before, now);
    PruneRemembers(m, k, h, now);
    var pruned := if |m| > l.pruneAbove then PruneStamps(m, WINDOW, now) else m;
    assert Remembers(pruned, k, h, now);
    if asker == k {
      AskOwn(pruned, l, k, h, now);
    }
  }

  /** One call: the limiter refuses exactly when the history has the limit of calls or more within the last second, but
      always at least one, and goes on remembering; accepted calls stay spread out. */
  lemma AskRefinesHistory<K>(m: Stamps<K>, l: Limit, k: K, h: seq<real>, asker: K, before: real, now: real)
    requires Remembers(m, k, h, before) && before <= now && Spread(h, Bound(l))
    ensures var (m', refused) := Ask(m, l, asker, now);
            && Remembers(m', k, Extended(h, k, asker, refused, now), now)
            && Spread(Extended(h, k, asker, refused, now), Bound(l))
            && (asker == k ==> (refused <==> LastSecond(h, now) >= (if l.limit >= 1 then l.limit else 1)))
  {
    RecentExactly(h, now);
    AskRemembers(m, l, k, h, asker, before, now);
  }

  lemma AskOwn<K>(m: Stamps<K>, l: Limit, k: K, h: seq<real>, now: real)
    requires Remembers(m, k, h, now) && Spread(h, Bound(l))
    ensures var (m', refused) := AskPruned(m, l, k, now);
            && Remembers(m', k, Extended(h, k, k, refused, now), now)
            && Spread(Extended(h, k, k, refused, now), Bound(l))
            && (refused <==> |Recent(h, now)| >= Bound(l))
  {
    var ts := if k in m then m[k] else [];
    RecentCovers(ts, h, now);
    RecentOfHistory(ts, h, now);
    var valid := Recent(ts, now);
    if |valid| < Bound(l) {
      assert AskPruned(m, l, k, now) == (m[k := valid + [now]], false) by {
        assert [] + [now] == [now];
      }
      RememberAccepted(m, k, valid, h, now);
      ExtendSpread(valid, h, Bound(l), now);
    } else {
      assert AskPruned(m, l, k, now) == (m[k := valid], true);
    }
  }

  lemma RememberAccepted<K>(m: Stamps<K>, k: K, valid: seq<real>, h: seq<real>, now: real)
    requires Ascending(h) && (forall i :: 0 <= i < |h| ==> h[i] <= now) && Covers(valid, h, now)
    ensures Remembers(m[k := valid + [now]], k, h + [now], now)
  {
    ExtendCovers(valid, h, now);
  }

  lemma ExtendCovers(valid: seq<real>, h: seq<real>, now: real)
    requires Covers(valid, h, now)
    ensures Covers(valid + [now], h + [now], now)
  {
    var longer := h + [now];
    assert longer[|longer| - |valid + [now]|..] == h[|h| - |valid|..] + [now];
  }

  lemma ExtendSpread(valid: seq<real>, h: seq<real>, n: nat, now: real)
    requires Covers(valid, h, now) && Spread(h, n) && |valid| < n
    ensures Spread(h + [now], n)
  {
    var longer := h + [now];
    forall j | n <= j < |longer| ensures longer[j] - longer[j - n] > WINDOW {
      if j == |h| {
        assert j - n < |h| - |valid|;
      }
    }
  }

  /** What the limiter looks at is what the whole history has within the last second. */
  lemma {:induction false} RecentOfHistory(ts: seq<real>, h: seq<real>, now: real)
    requires Covers(ts, h, now)
    ensures Recent(h, now) == Recent(ts, now)
  {
    if |ts| == |h| {
      assert h == ts;
    } else {
      assert now - h[0] > WINDOW;
      assert h[1..][|h[1..]| - |ts|..] == ts;
      forall i | 0 <= i < |h[1..]| - |ts| ensures now - h[1..][i] > WINDOW {
        assert h[1..][i] == h[i + 1];
      }
      RecentOfHistory(ts, h[1..], now);
    }
  }

  // ---- whole runs ----

  datatype Call<K> = AskCall(key: K, now: real) | PruneCall(now: real)

  predicate Timely<K>(calls: seq<Call<K>>, start: real)
    decreases calls
  {
    calls == [] || (start <= calls[0].now && Timely(calls[1..], calls[0].now))
  }

  /** The times at which calls of `k` are accepted in a run, after those of `h`. */
  function AcceptedTimes<K(==)>(m: Stamps<K>, l: Limit, calls: seq<Call<K>>, k: K, h: seq<real>): seq<real>
    decreases calls
  {
    if calls == [] then h
    else match calls[0]
    case AskCall(key, now) =>
      var (m', refused) := Ask(m, l, key, now);
      AcceptedTimes(m', l, calls[1..], k, Extended(h, k, key, refused, now))
    case PruneCall(now) => AcceptedTimes(PruneStamps(m, WINDOW, now), l, calls[1..], k, h)
  }

  lemma {:induction false} RunStaysSpread<K>(
      m: Stamps<K>, l: Limit, calls: seq<Call<K>>, k: K, h: seq<real>, start: real)
    requires Timely(calls, start) && Remembers(m, k, h, start) && Spread(h, Bound(l))
    ensures var accepted := AcceptedTimes(m, l, calls, k, h); Spread(accepted, Bound(l)) && Ascending(accepted)
    decreases calls
  {
    if calls != [] {
      match calls[0] {
        case AskCall(key, now) =>
          AskRefinesHistory(m, l, k, h, key, start, now);
          var (m', refused) := Ask(m, l, key, now);
          RunStaysSpread(m', l, calls[1..], k, Extended(h, k, key, refused, now), now);
        case PruneCall(now) =>
          CoversLater(if k in m then m[k] else [], h, start, now);
          PruneRemembers(m, k, h, now);
          RunStaysSpread(PruneStamps(m, WINDOW, now), l, calls[1..], k, h, now);
      }
    }
  }

  /** How many times of `h` lie in the closed second that begins at `t`. */
  function CountWithin(h: seq<real>, t: real): nat {
    if h == [] then 0
    else CountWithin(h[..|h| - 1], t) + (if t <= h[|h| - 1] <= t + 1.0 then 1 else 0)
  }

  lemma {:induction false} SpreadBoundsWindow(h: seq<real>, n: nat, t: real)
    requires Ascending(h) && Spread(h, n) && n >= 1
    ensures CountWithin(h, t) <= n
  {
    if h != [] {
      var front, last := h[..|h| - 1], h[|h| - 1];
      SpreadBoundsWindow(front, n, t);
      if t <= last <= t + WINDOW {
        CountTail(h, n, t);
      }
    }
  }

  /** Only the last `k` times can be in the window if the one before them is too early. */
  lemma {:induction false} CountTail(h: seq<real>, k: nat, t: real)
    requires Ascending(h) && (k < |h| ==> h[|h| - 1 - k] < t)
    ensures CountWithin(h, t) <= k
    decreases |h|
  {
    if h != [] {
      var front := h[..|h| - 1];
      if k > 0 {
        CountTail(front, k - 1, t);
      } else {
        CountTail(front, 0, t);
      }
    }
  }

  /** Over every run of a limiter under a clock that does not run backwards, and whatever other senders do, no closed
      window of one second has more accepted calls of a sender than the bound. */
  lemma RateLimitHolds<K>(l: Limit, calls: seq<Call<K>>, k: K, start: real, t: real)
    requires Timely(calls, start)
    ensures CountWithin(AcceptedTimes(map[], l, calls, k, []), t) <= Bound(l)
  {
    RunStaysSpread(map[], l, calls, k, [], start);
    SpreadBoundsWindow(AcceptedTimes(map[], l, calls, k, []), Bound(l), t);
  }
}
