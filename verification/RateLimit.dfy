/** The two request limiters: the sliding window of the API (api/ratelimit.go) and the login
    limiter of the on-demand gateway (cmd/hogs-agent/gateway.go).  Both forget addresses to
    bound their memory; the ghost fields are limiters that never forget.

    The API's limiter reads the monotonic clock under its mutex, so its times never decrease.  The
    gateway's reads it before, so whoever waited longer comes with an older reading. */
module RateLimit {
  import opened Wrappers

  type Address = string

  /** The times that lie less than `window` before `now`. */
  function Recent(times: seq<int>, now: int, window: int): seq<int> {
    if times == [] then []
    else
      var rest, last := Recent(times[..|times| - 1], now, window), times[|times| - 1];
      if now - last < window then rest + [last] else rest
  }

  function Get(m: map<Address, seq<int>>, ip: Address): seq<int> {
    if ip in m then m[ip] else []
  }

  ghost predicate Ascending(times: seq<int>) {
    forall i, j :: 0 <= i < j < |times| ==> times[i] <= times[j]
  }

  /** `kept` is what remains of `all` after dropping times that are too old. */
  ghost predicate ExpiredPrefixDropped(all: seq<int>, kept: seq<int>, now: int, window: int) {
    && |kept| <= |all| && kept == all[|all| - |kept|..]
    && forall i :: 0 <= i < |all| - |kept| ==> now - all[i] >= window
  }

  lemma OneMoreRecent(all: seq<int>, kept: seq<int>, last: int, now: int, window: int)
    requires ExpiredPrefixDropped(all, kept, now, window) && now - last < window
    requires forall i :: |all| - |kept| <= i < |all| ==> now - all[i] < window
    ensures ExpiredPrefixDropped(all + [last], kept + [last], now, window)
    ensures forall i :: |all| - |kept| <= i <= |all| ==> now - (all + [last])[i] < window
  {}

  lemma AllExpired(all: seq<int>, now: int, window: int)
    requires forall i :: 0 <= i < |all| ==> now - all[i] >= window
    ensures ExpiredPrefixDropped(all, [], now, window)
  {}

  lemma {:induction false} RecentIsSuffix(times: seq<int>, now: int, window: int)
    requires Ascending(times)
    ensures ExpiredPrefixDropped(times, Recent(times, now, window), now, window)
    ensures forall i :: |times| - |Recent(times, now, window)| <= i < |times| ==> now - times[i] < window
  {
    if times != [] {
      var rest, last := times[..|times| - 1], times[|times| - 1];
      assert times == rest + [last];
      if now - last < window {
        RecentIsSuffix(rest, now, window);
        hide ExpiredPrefixDropped;
        OneMoreRecent(rest, Recent(rest, now, window), last, now, window);
      } else {
        forall i | 0 <= i < |times| ensures now - times[i] >= window { assert times[i] <= last; }
        RecentOfExpired(times, now, window);
        AllExpired(times, now, window);
      }
    }
  }

  lemma {:induction false} RecentOfExpired(times: seq<int>, now: int, window: int)
    requires forall i :: 0 <= i < |times| ==> now - times[i] >= window
    ensures Recent(times, now, window) == []
  {
    if times != [] {
      RecentOfExpired(times[..|times| - 1], now, window);
    }
  }

  lemma {:induction false} RecentIgnoresExpired(early: seq<int>, kept: seq<int>, now: int, window: int)
    requires forall i :: 0 <= i < |early| ==> now - early[i] >= window
    ensures Recent(early + kept, now, window) == Recent(kept, now, window)
  {
    if kept == [] {
      assert early + kept == early;
      RecentOfExpired(early, now, window);
    } else {
      RecentIgnoresExpired(early, kept[..|kept| - 1], now, window);
      assert (early + kept)[..|early| + |kept| - 1] == early + kept[..|kept| - 1];
    }
  }

  /** Reading the pruned list gives the same answer as reading the full one. */
  lemma RecentOfKept(all: seq<int>, kept: seq<int>, before: int, now: int, window: int)
    requires ExpiredPrefixDropped(all, kept, before, window) && before <= now
    ensures Recent(kept, now, window) == Recent(all, now, window)
  {
    var cut := |all| - |kept|;
    assert all == all[..cut] + kept;
    RecentIgnoresExpired(all[..cut], kept, now, window);
  }

  /** Any limit + 1 requests let through in a row span at least the window. */
  ghost predicate Spaced(times: seq<int>, limit: int, window: int) {
    forall i, j :: 0 <= i < j < |times| && j == i + limit ==> times[j] - times[i] >= window
  }

  /** How the stored times of one address relate to every request it was ever granted. */
  ghost predicate AddressOK(kept: seq<int>, all: seq<int>, limit: int, window: int, clock: int) {
    && Ascending(all) && Spaced(all, limit, window)
    && (forall t :: t in all ==> t <= clock)
    && ExpiredPrefixDropped(all, kept, clock, window)
  }

  lemma TimePasses(kept: seq<int>, all: seq<int>, limit: int, window: int, clock: int, now: int)
    requires AddressOK(kept, all, limit, window, clock) && clock <= now
    ensures AddressOK(kept, all, limit, window, now)
  {}

  lemma Prune(kept: seq<int>, all: seq<int>, limit: int, window: int, clock: int, now: int)
    requires AddressOK(kept, all, limit, window, clock) && clock <= now
    ensures Recent(kept, now, window) == Recent(all, now, window)
    ensures AddressOK(Recent(kept, now, window), all, limit, window, now)
  {
    RecentOfKept(all, kept, clock, now, window);
    RecentIsSuffix(all, now, window);
  }

  lemma Grant(kept: seq<int>, all: seq<int>, limit: int, window: int, now: int)
    requires AddressOK(kept, all, limit, window, now) && kept == Recent(all, now, window) && |kept| < limit
    ensures AddressOK(kept + [now], all + [now], limit, window, now)
  {
    RecentIsSuffix(all, now, window);
    forall i | 0 <= i < |all| ensures all[i] <= now { assert all[i] in all; }
  }

  /** Every address but those in `todo` keeps exactly its recent times, and none is kept for nothing. */
  ghost predicate Cleaned(before: map<Address, seq<int>>, after: map<Address, seq<int>>, todo: set<Address>, now: int, window: int) {
    && after.Keys <= before.Keys && todo <= after.Keys
    && (forall ip :: ip in todo ==> after[ip] == before[ip])
    && (forall ip :: ip in after && ip !in todo ==> after[ip] == Recent(before[ip], now, window) && after[ip] != [])
    && (forall ip :: ip in before && ip !in after ==> Recent(before[ip], now, window) == [])
  }

  lemma CleanNext(before: map<Address, seq<int>>, after: map<Address, seq<int>>, todo: set<Address>, now: int, window: int, ip: Address)
    requires Cleaned(before, after, todo, now, window) && ip in todo
    ensures var recent := Recent(after[ip], now, window);
            Cleaned(before, if recent == [] then after - {ip} else after[ip := recent], todo - {ip}, now, window)
  {
    hide Recent;
  }

  class RateLimiter {
    const limit: int
    const window: int
    var requests: map<Address, seq<int>>
    ghost var granted: map<Address, seq<int>>  // every request ever let through
    ghost var clock: int

    ghost predicate Valid()
      reads this
    {
      forall ip :: AddressOK(Get(requests, ip), Get(granted, ip), limit, window, clock)
    }

    constructor (limit: int, window: int, ghost now: int)
      ensures Valid() && granted == map[] && clock == now && this.limit == limit && this.window == window
    {
      this.limit, this.window := limit, window;
      requests, granted, clock := map[], map[], now;
    }

    ghost method Tick(now: int)
      requires Valid() && clock <= now
      modifies this`clock
      ensures Valid() && clock == now
    {
      forall ip ensures AddressOK(Get(requests, ip), Get(granted, ip), limit, window, now) {
        TimePasses(Get(requests, ip), Get(granted, ip), limit, window, clock, now);
      }
      clock := now;
      hide AddressOK;
    }

    method Filter(times: seq<int>, now: int) returns (valid: seq<int>)
      ensures valid == Recent(times, now, window)
    {
      valid := [];
      for i := 0 to |times|
        invariant valid == Recent(times[..i], now, window)
      {
        assert times[..i + 1][..i] == times[..i];
        if now - times[i] < window {
          valid := valid + [times[i]];
        }
      }
      assert times[..|times|] == times;
    }

    /** A request is let through exactly when fewer than `limit` were in the last window, counted
        over everything ever let through. */
    method Allow(ip: Address, now: int) returns (ok: bool)
      requires Valid() && clock <= now
      modifies this
      ensures Valid() && clock == now
      ensures ok <==> |Recent(old(Get(granted, ip)), now, window)| < limit
      ensures granted == if ok then old(granted)[ip := old(Get(granted, ip)) + [now]] else old(granted)
      ensures var recent := Recent(old(Get(requests, ip)), now, window);
        requests == old(requests)[ip := if ok then recent + [now] else recent]
    {
      hide AddressOK, Recent;
      Tick(now);
      ghost var all := Get(granted, ip);
      Prune(Get(requests, ip), all, limit, window, now, now);
      var valid := Filter(Get(requests, ip), now);
      if |valid| >= limit {
        requests := requests[ip := valid];
        return false;
      }
      Grant(valid, all, limit, window, now);
      valid := valid + [now];
      requests := requests[ip := valid];
      granted := granted[ip := all + [now]];
      forall other ensures AddressOK(Get(requests, other), Get(granted, other), limit, window, clock) {
        if other != ip {
          assert Get(requests, other) == old(Get(requests, other)) && Get(granted, other) == old(Get(granted, other));
        }
      }
      ok := true;
    }

    /** Forgetting what has expired changes no later decision. */
    method Cleanup(now: int)
      requires Valid() && clock <= now
      modifies this
      ensures Valid() && clock == now && granted == old(granted)
      ensures Cleaned(old(requests), requests, {}, now, window)
    {
      Tick(now);
      assert Cleaned(requests, requests, requests.Keys, now, window);
      hide AddressOK, Recent, Cleaned;
      var todo := requests.Keys;
      while todo != {}
        invariant Valid() && clock == now && granted == old(granted)
        invariant todo <= requests.Keys
        invariant Cleaned(old(requests), requests, todo, now, window)
      {
        var ip :| ip in todo;
        CleanNext(old(requests), requests, todo, now, window, ip);
        Prune(Get(requests, ip), Get(granted, ip), limit, window, now, now);
        var valid := Filter(requests[ip], now);
        if valid == [] {
          requests := requests - {ip};
        } else {
          requests := requests[ip := valid];
        }
        todo := todo - {ip};
      }
    }

    /** The window of the documentation: limit + 1 granted requests of one address span it. */
    lemma GrantedRequestsSpanWindow(ip: Address, i: nat)
      requires Valid() && ip in granted && i + limit < |granted[ip]| && limit > 0
      ensures granted[ip][i + limit] - granted[ip][i] >= window
    {
      assert AddressOK(Get(requests, ip), Get(granted, ip), limit, window, clock);
    }
  }

  // ---------------------------------------------------------------- the login limiter

  const MAX_ADDRESSES := 1024

  type Attempts = map<Address, int>

  /** Who tries to log in, and the reading of the clock it took before waiting for the mutex. */
  datatype Login = Login(host: Address, now: int)

  predicate Allows(attempts: Attempts, login: Login, rate: int) {
    login.host !in attempts || login.now - attempts[login.host] >= rate
  }

  function Pruned(attempts: Attempts, cutoff: int): Attempts {
    map h | h in attempts && attempts[h] >= cutoff :: attempts[h]
  }

  /** `bound` is how many addresses are remembered before old ones are forgotten; without it
      nothing ever is. */
  function AfterLogin(attempts: Attempts, login: Login, rate: int, bound: Option<nat>): Attempts {
    if !Allows(attempts, login, rate) then attempts
    else
      var more := attempts[login.host := login.now];
      if bound.Some? && |more| > bound.value then Pruned(more, login.now - 2 * rate) else more
  }

  function Remembered(logins: seq<Login>, rate: int, bound: Option<nat>): Attempts {
    if logins == [] then map[]
    else AfterLogin(Remembered(logins[..|logins| - 1], rate, bound), logins[|logins| - 1], rate, bound)
  }

  function Answers(logins: seq<Login>, rate: int, bound: Option<nat>): seq<bool> {
    if logins == [] then []
    else
      var front, last := logins[..|logins| - 1], logins[|logins| - 1];
      Answers(front, rate, bound) + [Allows(Remembered(front, rate, bound), last, rate)]
  }

  lemma LoginsNext(logins: seq<Login>, login: Login, rate: int, bound: Option<nat>)
    ensures var before := Remembered(logins, rate, bound);
            && Remembered(logins + [login], rate, bound) == AfterLogin(before, login, rate, bound)
            && Answers(logins + [login], rate, bound) == Answers(logins, rate, bound) + [Allows(before, login, rate)]
  {
    assert (logins + [login])[..|logins|] == logins;
  }

  /** No reading is more than `skew` older than one that got the mutex before it. */
  ghost predicate Skewed(logins: seq<Login>, skew: int) {
    forall i, j :: 0 <= i < j < |logins| ==> logins[i].now - logins[j].now <= skew
  }

  /** Whoever was forgotten logged in more than twice the rate before the latest reading. */
  ghost predicate ForgottenLongAgo(attempts: Attempts, everyone: Attempts, logins: seq<Login>, rate: int) {
    && (forall h :: h in attempts ==> h in everyone && everyone[h] == attempts[h])
    && (forall h :: h in everyone && h !in attempts ==> exists l :: l in logins && l.now - everyone[h] > 2 * rate)
  }

  lemma ForgottenNext(attempts: Attempts, everyone: Attempts, logins: seq<Login>, login: Login, rate: int, max: nat)
    requires rate > 0 && ForgottenLongAgo(attempts, everyone, logins, rate)
    requires forall l :: l in logins ==> l.now - login.now <= rate + 1
    ensures Allows(attempts, login, rate) <==> Allows(everyone, login, rate)
    ensures ForgottenLongAgo(AfterLogin(attempts, login, rate, Some(max)), AfterLogin(everyone, login, rate, None), logins + [login], rate)
  {
    var longer := logins + [login];
    assert login in longer;
    forall h | h in everyone && h !in attempts
      ensures exists l :: l in longer && l.now - everyone[h] > 2 * rate
    {
      var l :| l in logins && l.now - everyone[h] > 2 * rate;
      assert l in longer;
    }
  }

  lemma {:induction false} SameAnswers(logins: seq<Login>, rate: int, max: nat)
    requires rate > 0 && Skewed(logins, rate + 1)
    ensures ForgottenLongAgo(Remembered(logins, rate, Some(max)), Remembered(logins, rate, None), logins, rate)
    ensures Answers(logins, rate, Some(max)) == Answers(logins, rate, None)
  {
    if logins != [] {
      var front, last := logins[..|logins| - 1], logins[|logins| - 1];
      SameAnswers(front, rate, max);
      assert logins == front + [last];
      ForgottenNext(Remembered(front, rate, Some(max)), Remembered(front, rate, None), front, last, rate, max);
    }
  }

  /** One more login in a run whose readings are not too far out of order. */
  lemma NextAnswer(logins: seq<Login>, login: Login, rate: int, max: nat)
    requires rate > 0 && Skewed(logins + [login], rate + 1)
    ensures Answers(logins + [login], rate, None) ==
            Answers(logins, rate, None) + [Allows(Remembered(logins, rate, Some(max)), login, rate)]
  {
    assert forall i :: 0 <= i < |logins| ==> logins[i] == (logins + [login])[i];
    hide Answers, Remembered;
    LoginsNext(logins, login, rate, Some(max));
    SameAnswers(logins, rate, max);
    SameAnswers(logins + [login], rate, max);
  }

  function Stranger(n: nat): (host: Address)
    ensures |host| == n
  {
    seq(n, _ => 'x')
  }

  /** One address logs in at time zero, `count` other ones much later. */
  function Crowd(rate: nat, count: nat): seq<Login> {
    if count == 0 then [Login("", 0)]
    else Crowd(rate, count - 1) + [Login(Stranger(count), 2 * rate + 1)]
  }

  lemma {:induction false} CrowdShape(rate: nat, count: nat)
    ensures Crowd(rate, count) != [] && Skewed(Crowd(rate, count), 0)
    ensures forall l :: l in Crowd(rate, count) ==> 0 <= l.now <= 2 * rate + 1
  {
    if count > 0 { CrowdShape(rate, count - 1); }
  }

  lemma CrowdGrows(full: Attempts, rate: nat, host: Address, bound: Option<nat>)
    requires rate > 0 && (bound.Some? ==> |full| < bound.value) && "" in full && full[""] == 0
    requires |host| == |full| && forall h :: h in full ==> |h| < |full|
    ensures var more := AfterLogin(full, Login(host, 2 * rate + 1), rate, bound);
            |more| == |full| + 1 && "" in more && more[""] == 0 && forall h :: h in more ==> |h| <= |full|
  {}

  lemma CrowdOverflows(full: Attempts, rate: nat, host: Address)
    requires rate > 0 && "" in full && full[""] == 0 && host !in full
    ensures "" !in AfterLogin(full, Login(host, 2 * rate + 1), rate, Some(|full|))
  {
    assert |full[host := 2 * rate + 1]| == |full| + 1;
  }

  lemma {:induction false} CrowdFills(rate: nat, count: nat, bound: Option<nat>)
    requires rate > 0 && (bound.Some? ==> count < bound.value)
    ensures var full := Remembered(Crowd(rate, count), rate, bound);
            |full| == count + 1 && "" in full && full[""] == 0 && forall h :: h in full ==> |h| <= count
  {
    var logins := Crowd(rate, count);
    if count == 0 {
      assert logins[..0] == [] && Remembered(logins[..0], rate, bound) == map[];
    } else {
      hide Remembered, Answers, AfterLogin;
      var before, host := Crowd(rate, count - 1), Stranger(count);
      CrowdFills(rate, count - 1, bound);
      LoginsNext(before, Login(host, 2 * rate + 1), rate, bound);
      CrowdGrows(Remembered(before, rate, bound), rate, host, bound);
    }
  }

  lemma CrowdForgets(rate: nat, max: nat)
    requires rate > 0 && max > 0
    ensures "" !in Remembered(Crowd(rate, max), rate, Some(max))
  {
    hide Remembered, Answers, AfterLogin;
    var before, host := Crowd(rate, max - 1), Stranger(max);
    CrowdFills(rate, max - 1, Some(max));
    LoginsNext(before, Login(host, 2 * rate + 1), rate, Some(max));
    CrowdOverflows(Remembered(before, rate, Some(max)), rate, host);
  }

  /** A login of the first address whose reading is `skew` older than the ones before it. */
  function LateLogin(rate: nat, max: nat, skew: nat): seq<Login> {
    Crowd(rate, max) + [Login("", 2 * rate + 1 - skew)]
  }

  lemma LateLoginDiffers(rate: nat, max: nat, skew: nat)
    requires rate > 0 && max > 0 && skew > rate + 1
    ensures Skewed(LateLogin(rate, max, skew), skew)
    ensures Answers(LateLogin(rate, max, skew), rate, Some(max)) != Answers(LateLogin(rate, max, skew), rate, None)
  {
    var crowd, logins := Crowd(rate, max), LateLogin(rate, max, skew);
    CrowdShape(rate, max);
    CrowdFills(rate, max, None);
    CrowdForgets(rate, max);
    hide Answers, Remembered;
    LoginsNext(crowd, Login("", 2 * rate + 1 - skew), rate, Some(max));
    LoginsNext(crowd, Login("", 2 * rate + 1 - skew), rate, None);
    AnswersLength(crowd, rate, Some(max));
    AnswersLength(crowd, rate, None);
    assert Answers(logins, rate, Some(max))[|crowd|] && !Answers(logins, rate, None)[|crowd|];
  }

  lemma {:induction false} AnswersLength(logins: seq<Login>, rate: int, bound: Option<nat>)
    ensures |Answers(logins, rate, bound)| == |logins|
  {
    if logins != [] { AnswersLength(logins[..|logins| - 1], rate, bound); }
  }

  /** Forgetting addresses changes no answer exactly as long as the readings get out of order by
      no more than the rate, and a tick. */
  lemma SkewTolerated(rate: nat, max: nat, skew: nat)
    requires rate > 0 && max > 0
    ensures (forall logins :: Skewed(logins, skew) ==> Answers(logins, rate, Some(max)) == Answers(logins, rate, None))
            <==> skew <= rate + 1
  {
    if skew <= rate + 1 {
      forall logins | Skewed(logins, skew) ensures Answers(logins, rate, Some(max)) == Answers(logins, rate, None) {
        assert Skewed(logins, rate + 1);
        SameAnswers(logins, rate, max);
      }
    } else {
      LateLoginDiffers(rate, max, skew);
    }
  }

  class LoginLimiter {
    const rate: nat
    var attempts: Attempts
    ghost var logins: seq<Login>  // every attempt, in the order they got the mutex

    ghost predicate Valid()
      reads this
    {
      rate > 0 && attempts == Remembered(logins, rate, Some(MAX_ADDRESSES))
    }

    constructor (rate: nat)
      requires rate > 0
      ensures Valid() && logins == [] && this.rate == rate
    {
      this.rate, attempts, logins := rate, map[], [];
    }

    /** The answer is the one of a limiter that never forgets an address, unless readings of the
        clock got out of order by more than the rate. */
    method AllowOfflineLogin(host: Address, now: int) returns (ok: bool)
      requires Valid()
      modifies this
      ensures Valid() && logins == old(logins) + [Login(host, now)]
      ensures Answers(logins, rate, Some(MAX_ADDRESSES)) == Answers(old(logins), rate, Some(MAX_ADDRESSES)) + [ok]
      ensures Skewed(logins, rate + 1) ==> Answers(logins, rate, None) == Answers(old(logins), rate, None) + [ok]
    {
      ghost var login := Login(host, now);
      hide Answers, Skewed, Remembered;
      LoginsNext(logins, login, rate, Some(MAX_ADDRESSES));
      if Skewed(logins + [login], rate + 1) { NextAnswer(logins, login, rate, MAX_ADDRESSES); }
      logins := logins + [login];
      if host in attempts && now - attempts[host] < rate {
        return false;
      }
      attempts := attempts[host := now];
      if |attempts| > MAX_ADDRESSES {
        DropBefore(now - 2 * rate);
      }
      ok := true;
    }

    method DropBefore(cutoff: int)
      modifies this`attempts
      ensures attempts == Pruned(old(attempts), cutoff)
    {
      var todo := attempts.Keys;
      while todo != {}
        invariant todo <= attempts.Keys <= old(attempts).Keys
        invariant forall h :: h in attempts ==> attempts[h] == old(attempts)[h] && (h in todo || attempts[h] >= cutoff)
        invariant forall h :: h in old(attempts) && old(attempts)[h] >= cutoff ==> h in attempts
      {
        var candidate :| candidate in todo;
        if attempts[candidate] < cutoff {
          attempts := attempts - {candidate};
        }
        todo := todo - {candidate};
      }
    }
  }
}
