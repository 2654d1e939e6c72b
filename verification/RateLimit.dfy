/** The in-memory fixed-window limiter of backend/middleware/publicRateLimit.js. */
module RateLimit {
  import opened Wrappers

  datatype Entry = Entry(count: int, resetAt: int)

  /** One increment of one key's counter; the window opens with the request that finds none open. */
  function Incr(entry: Option<Entry>, now: int, window: int): Entry {
    match entry
    case Some(e) => if now >= e.resetAt then Entry(1, now + window) else Entry(e.count + 1, e.resetAt)
    case None => Entry(1, now + window)
  }

  type Store = map<string, Entry>

  function Lookup(store: Store, key: string): Option<Entry> {
    if key in store then Some(store[key]) else None
  }

  /** The count that an increment of the key returns. */
  function CountOf(store: Store, key: string, now: int, window: int): int {
    Incr(Lookup(store, key), now, window).count
  }

  function IpKey(ip: string): string { "rl:ip:" + ip }
  function WalletKey(wallet: string): string { "rl:wallet:" + wallet }

  /** One request to a public route; a request without a Stellar address has no wallet. */
  datatype Request = Request(ip: string, wallet: Option<string>, whitelisted: bool, now: int)

  datatype Limits = Limits(ipMax: int, walletMax: int, window: int)

  /** The counter calls the middleware makes for a request: the wallet counts only if the IP passes. */
  function Calls(store: Store, r: Request, limits: Limits): seq<string> {
    if r.whitelisted then []
    else if CountOf(store, IpKey(r.ip), r.now, limits.window) > limits.ipMax || r.wallet.None? then [IpKey(r.ip)]
    else [IpKey(r.ip), WalletKey(r.wallet.value)]
  }

  function Count(store: Store, key: string, now: int, window: int): Store {
    store[key := Incr(Lookup(store, key), now, window)]
  }

  function CountAll(store: Store, keys: seq<string>, now: int, window: int): Store {
    if keys == [] then store else Count(CountAll(store, keys[..|keys| - 1], now, window), keys[|keys| - 1], now, window)
  }

  predicate Admits(store: Store, r: Request, limits: Limits) {
    r.whitelisted ||
    (&& CountOf(store, IpKey(r.ip), r.now, limits.window) <= limits.ipMax
     && (r.wallet.Some? ==> CountOf(store, WalletKey(r.wallet.value), r.now, limits.window) <= limits.walletMax))
  }

  lemma CountOneTwo(store: Store, a: string, b: string, now: int, window: int)
    ensures CountAll(store, [a], now, window) == Count(store, a, now, window)
    ensures CountAll(store, [a, b], now, window) == Count(Count(store, a, now, window), b, now, window)
  {
    assert [a, b][..1] == [a] && [a][..0] == [];
  }

  lemma KeysDiffer(ip: string, wallet: string)
    ensures IpKey(ip) != WalletKey(wallet)
  {
    assert IpKey(ip)[3] == 'i' && WalletKey(wallet)[3] == 'w';
  }

  class Limiter {
    const window: int
    var memStore: Store

    constructor (window: int)
      ensures memStore == map[] && this.window == window
    {
      this.window := window;
      memStore := map[];
    }

    method MemIncr(key: string, now: int) returns (count: int, resetAt: int)
      modifies this
      ensures memStore == Count(old(memStore), key, now, window)
      ensures Entry(count, resetAt) == memStore[key]
    {
      if key !in memStore || now >= memStore[key].resetAt {
        memStore := memStore[key := Entry(0, now + window)];
      }
      var entry := memStore[key];
      memStore := memStore[key := entry.(count := entry.count + 1)];
      count, resetAt := entry.count + 1, entry.resetAt;
    }

    /** True where the middleware calls next, false where it answers 429. */
    method PublicRateLimit(r: Request, limits: Limits) returns (admitted: bool)
      requires limits.window == window
      modifies this
      ensures memStore == CountAll(old(memStore), Calls(old(memStore), r, limits), r.now, window)
      ensures admitted == Admits(old(memStore), r, limits)
    {
      if r.whitelisted {
        return true;
      }
      CountOneTwo(memStore, IpKey(r.ip), if r.wallet.Some? then WalletKey(r.wallet.value) else "", r.now, window);
      var ipCount, _ := MemIncr(IpKey(r.ip), r.now);
      if ipCount > limits.ipMax {
        return false;
      }
      if r.wallet.Some? {
        KeysDiffer(r.ip, r.wallet.value);
        var walletCount, _ := MemIncr(WalletKey(r.wallet.value), r.now);
        if walletCount > limits.walletMax {
          return false;
        }
      }
      return true;
    }
  }

  // ---- One counter over all its increments ----

  predicate InOrder(times: seq<int>) {
    forall i, j :: 0 <= i < j < |times| ==> times[i] <= times[j]
  }

  /** The counter after increments at the given times. */
  function Counter(times: seq<int>, window: int): Option<Entry> {
    if times == [] then None else Some(Incr(Counter(times[..|times| - 1], window), times[|times| - 1], window))
  }

  /** Whether the last increment stays within the limit. */
  predicate Passes(times: seq<int>, window: int, max: int)
    requires times != []
  {
    Counter(times, window).value.count <= max
  }

  /** How many increments at or after `from` and before `to` stayed within the limit. */
  function PassedIn(times: seq<int>, from: int, to: int, window: int, max: int): nat {
    if times == [] then 0
    else
      PassedIn(times[..|times| - 1], from, to, window, max) +
      if from <= times[|times| - 1] < to && Passes(times, window, max) then 1 else 0
  }

  function PassedFrom(times: seq<int>, from: int, window: int, max: int): nat {
    if times == [] then 0
    else
      PassedFrom(times[..|times| - 1], from, window, max) +
      if from <= times[|times| - 1] && Passes(times, window, max) then 1 else 0
  }

  lemma {:induction false} PassedInAtMostFrom(times: seq<int>, from: int, to: int, window: int, max: int)
    ensures PassedIn(times, from, to, window, max) <= PassedFrom(times, from, window, max)
  {
    if times != [] {
      PassedInAtMostFrom(times[..|times| - 1], from, to, window, max);
    }
  }

  function Least(a: int, b: int): int { if a <= b then a else b }

  /** The time the open window opened. */
  function Opened(times: seq<int>, window: int): int
    requires times != []
  {
    Counter(times, window).value.resetAt - window
  }

  lemma {:induction false} LastIsInWindow(times: seq<int>, window: int)
    requires times != [] && InOrder(times) && window >= 1
    ensures var e := Counter(times, window).value;
            e.count >= 1 && e.resetAt - window <= times[|times| - 1] < e.resetAt
  {
    if |times| > 1 {
      LastIsInWindow(times[..|times| - 1], window);
    }
  }

  lemma {:induction false} NoneAfterLast(times: seq<int>, from: int, window: int, max: int)
    requires InOrder(times) && (times != [] ==> times[|times| - 1] < from)
    ensures PassedFrom(times, from, window, max) == 0
  {
    if times != [] {
      NoneAfterLast(times[..|times| - 1], from, window, max);
    }
  }

  /** In the open window exactly the first `max` requests have passed. */
  lemma {:induction false} PassedInWindow(times: seq<int>, window: int, max: nat)
    requires times != [] && InOrder(times) && window >= 1
    ensures PassedFrom(times, Opened(times, window), window, max) == Least(Counter(times, window).value.count, max)
  {
    var front, t := times[..|times| - 1], times[|times| - 1];
    LastIsInWindow(times, window);
    if front == [] {
    } else {
      LastIsInWindow(front, window);
      if t >= Counter(front, window).value.resetAt {
        NoneAfterLast(front, t, window, max);
      } else {
        PassedInWindow(front, window, max);
      }
    }
  }

  /** Counting from after the window opened misses the request that opened it. */
  lemma {:induction false} PassedAfterOpening(times: seq<int>, from: int, window: int, max: int)
    requires times != [] && InOrder(times) && window >= 1 && max >= 1
    requires from > Opened(times, window)
    ensures PassedFrom(times, from, window, max) <= Least(Counter(times, window).value.count, max) - 1
  {
    var front, t := times[..|times| - 1], times[|times| - 1];
    LastIsInWindow(times, window);
    if front != [] {
      LastIsInWindow(front, window);
      if t >= Counter(front, window).value.resetAt {
        NoneAfterLast(front, from, window, max);
      } else {
        PassedAfterOpening(front, from, window, max);
      }
    }
  }

  /** Counting from less than one window before the opening adds at most max - 1 of the window before. */
  lemma {:induction false} PassedAroundOpening(times: seq<int>, from: int, window: int, max: int)
    requires times != [] && InOrder(times) && window >= 1 && max >= 1
    requires Opened(times, window) - window < from <= Opened(times, window)
    ensures PassedFrom(times, from, window, max) <= max - 1 + Least(Counter(times, window).value.count, max)
  {
    var front, t := times[..|times| - 1], times[|times| - 1];
    if front != [] {
      LastIsInWindow(front, window);
      if t >= Counter(front, window).value.resetAt {
        PassedAfterOpening(front, from, window, max);
      } else {
        PassedAroundOpening(front, from, window, max);
      }
    }
  }

  /** At most 2 * max - 1 requests pass in any time interval of one window's length. */
  lemma {:induction false} PassedInInterval(times: seq<int>, from: int, window: int, max: int)
    requires InOrder(times) && window >= 1 && max >= 1
    ensures PassedIn(times, from, from + window, window, max) <= 2 * max - 1
    decreases |times|
  {
    if times != [] {
      LastIsInWindow(times, window);
      PassedInAtMostFrom(times, from, from + window, window, max);
      if from > Opened(times, window) {
        PassedAfterOpening(times, from, window, max);
      } else if from > Opened(times, window) - window {
        PassedAroundOpening(times, from, window, max);
      } else {
        PassedInInterval(times[..|times| - 1], from, window, max);
      }
    }
  }

  // ---- The bound is met ----

  lemma OneMore(times: seq<int>, t: int, from: int, to: int, window: int, max: int)
    ensures Counter(times + [t], window) == Some(Incr(Counter(times, window), t, window))
    ensures PassedIn(times + [t], from, to, window, max) ==
              PassedIn(times, from, to, window, max) +
              if from <= t < to && Incr(Counter(times, window), t, window).count <= max then 1 else 0
  {
    assert (times + [t])[..|times|] == times;
  }

  /** For every limit there is a history that passes 2 * max - 1 requests in one interval: one request opens a
      window, the rest of its allowance arrives at the window's last instant and the next allowance at the
      following one. */
  lemma BoundIsMet(window: int, max: int) returns (times: seq<int>)
    requires window >= 2 && max >= 1
    ensures InOrder(times)
    ensures PassedIn(times, window - 1, window - 1 + window, window, max) == 2 * max - 1
  {
    var from, to := window - 1, window - 1 + window;
    times := Next([], 0, from, to, window, max);
    times := Filled(times, from, max - 1, from, to, window, max);
    times := Next(times, window, from, to, window, max);
    times := Filled(times, window, max - 1, from, to, window, max);
  }

  lemma Next(times: seq<int>, t: int, from: int, to: int, window: int, max: int) returns (more: seq<int>)
    requires InOrder(times) && forall i :: 0 <= i < |times| ==> times[i] <= t
    ensures more != [] && InOrder(more) && forall i :: 0 <= i < |more| ==> more[i] <= t
    ensures Counter(more, window) == Some(Incr(Counter(times, window), t, window))
    ensures PassedIn(more, from, to, window, max) ==
              PassedIn(times, from, to, window, max) +
              if from <= t < to && Incr(Counter(times, window), t, window).count <= max then 1 else 0
  {
    more := times + [t];
    OneMore(times, t, from, to, window, max);
  }

  /** k more requests at one instant inside the open window. */
  lemma {:induction false} Filled(times: seq<int>, t: int, k: nat, from: int, to: int, window: int, max: int)
    returns (more: seq<int>)
    requires times != [] && InOrder(times) && forall i :: 0 <= i < |times| ==> times[i] <= t
    requires t < Counter(times, window).value.resetAt && from <= t < to
    requires Counter(times, window).value.count + k <= max
    ensures more != [] && InOrder(more) && forall i :: 0 <= i < |more| ==> more[i] <= t
    ensures Counter(more, window)
         == Some(Entry(Counter(times, window).value.count + k, Counter(times, window).value.resetAt))
    ensures PassedIn(more, from, to, window, max) == PassedIn(times, from, to, window, max) + k
    decreases k
  {
    if k == 0 {
      more := times;
    } else {
      var fewer := Filled(times, t, k - 1, from, to, window, max);
      more := Next(fewer, t, from, to, window, max);
    }
  }

  // ---- The middleware over a whole history ----

  /** Between its two increments a request waits, and others may be counted. */
  datatype Stage = Refused | Waiting | Admitted(at: int)

  datatype Call = Call(request: Request, stage: Stage)

  /** The counters, and the requests in order of arrival. */
  datatype Sys = Sys(store: Store, calls: seq<Call>)

  datatype Action =
    | Arrive(request: Request)         // the IP's increment
    | Resume(i: nat, now: int)         // the wallet's increment of the i-th request

  const START := Sys(map[], [])

  function StageAfterIp(store: Store, r: Request, limits: Limits): Stage {
    if r.whitelisted then Admitted(r.now)
    else if CountOf(store, IpKey(r.ip), r.now, limits.window) > limits.ipMax then Refused
    else if r.wallet.None? then Admitted(r.now)
    else Waiting
  }

  function StageAfterWallet(store: Store, wallet: string, now: int, limits: Limits): Stage {
    if CountOf(store, WalletKey(wallet), now, limits.window) > limits.walletMax then Refused else Admitted(now)
  }

  predicate CanResume(s: Sys, i: nat) {
    i < |s.calls| && s.calls[i].stage.Waiting? && s.calls[i].request.wallet.Some?
  }

  /** The key that a step increments, if any. */
  function KeyOf(s: Sys, a: Action): Option<string> {
    match a
    case Arrive(r) => if r.whitelisted then None else Some(IpKey(r.ip))
    case Resume(i, _) => if CanResume(s, i) then Some(WalletKey(s.calls[i].request.wallet.value)) else None
  }

  function Time(a: Action): int {
    match a case Arrive(r) => r.now case Resume(_, now) => now
  }

  function StoreAfter(s: Sys, a: Action, limits: Limits): Store {
    match KeyOf(s, a)
    case None => s.store
    case Some(key) => Count(s.store, key, Time(a), limits.window)
  }

  function CallsAfter(s: Sys, a: Action, limits: Limits): seq<Call> {
    match a
    case Arrive(r) => s.calls + [Call(r, StageAfterIp(s.store, r, limits))]
    case Resume(i, now) =>
      if CanResume(s, i)
      then s.calls[i := s.calls[i].(stage := StageAfterWallet(s.store, s.calls[i].request.wallet.value, now, limits))]
      else s.calls
  }

  function Step(s: Sys, a: Action, limits: Limits): Sys {
    Sys(StoreAfter(s, a, limits), CallsAfter(s, a, limits))
  }

  function Run(actions: seq<Action>, limits: Limits): Sys {
    if actions == [] then START else Step(Run(actions[..|actions| - 1], limits), actions[|actions| - 1], limits)
  }

  /** A request with nothing between its increments is what the middleware does in one go. */
  lemma UninterruptedIsRequest(s: Sys, r: Request, limits: Limits)
    ensures var t := Step(Step(s, Arrive(r), limits), Resume(|s.calls|, r.now), limits);
            && t.store == CountAll(s.store, Calls(s.store, r, limits), r.now, limits.window)
            && t.calls == s.calls + [Call(r, if Admits(s.store, r, limits) then Admitted(r.now) else Refused)]
  {
    if r.wallet.Some? {
      KeysDiffer(r.ip, r.wallet.value);
    }
    CountOneTwo(s.store, IpKey(r.ip), if r.wallet.Some? then WalletKey(r.wallet.value) else "", r.now, limits.window);
    assert CountAll(s.store, [], r.now, limits.window) == s.store;
  }

  /** When a history increments one key. */
  function TimesOf(actions: seq<Action>, key: string, limits: Limits): seq<int> {
    if actions == [] then []
    else
      var front, a := actions[..|actions| - 1], actions[|actions| - 1];
      TimesOf(front, key, limits) + if KeyOf(Run(front, limits), a) == Some(key) then [Time(a)] else []
  }

  predicate ClockForward(actions: seq<Action>) {
    forall i, j :: 0 <= i < j < |actions| ==> Time(actions[i]) <= Time(actions[j])
  }

  lemma {:induction false} TimesAreInOrder(actions: seq<Action>, key: string, limits: Limits)
    requires ClockForward(actions)
    ensures InOrder(TimesOf(actions, key, limits))
    ensures forall i :: 0 <= i < |TimesOf(actions, key, limits)| ==>
              actions != [] && TimesOf(actions, key, limits)[i] <= Time(actions[|actions| - 1])
  {
    if actions != [] {
      TimesAreInOrder(actions[..|actions| - 1], key, limits);
    }
  }

  lemma OneEntry(s: Sys, a: Action, key: string, limits: Limits)
    ensures Lookup(Step(s, a, limits).store, key)
         == if KeyOf(s, a) == Some(key) then Some(Incr(Lookup(s.store, key), Time(a), limits.window))
            else Lookup(s.store, key)
  {
  }

  lemma OneTime(actions: seq<Action>, key: string, limits: Limits, before: seq<int>, hit: bool)
    requires actions != [] && before == TimesOf(actions[..|actions| - 1], key, limits)
    requires hit <==> KeyOf(Run(actions[..|actions| - 1], limits), actions[|actions| - 1]) == Some(key)
    ensures TimesOf(actions, key, limits) == if hit then before + [Time(actions[|actions| - 1])] else before
  {
    assert before + [] == before;
  }

  /** Each key's entry is its own counter: no other key's traffic changes it. */
  lemma {:induction false} EntryIsCounter(actions: seq<Action>, key: string, limits: Limits)
    ensures Lookup(Run(actions, limits).store, key) == Counter(TimesOf(actions, key, limits), limits.window)
  {
    if actions != [] {
      var front, a := actions[..|actions| - 1], actions[|actions| - 1];
      var before, hit := TimesOf(front, key, limits), KeyOf(Run(front, limits), a) == Some(key);
      EntryIsCounter(front, key, limits);
      OneEntry(Run(front, limits), a, key, limits);
      OneTime(actions, key, limits, before, hit);
      OneMore(before, Time(a), 0, 0, limits.window, 0);
    }
  }

  function MaxFor(key: string, limits: Limits): int {
    if "rl:ip:" <= key then limits.ipMax else limits.walletMax
  }

  lemma MaxForKeys(ip: string, wallet: string, limits: Limits)
    ensures MaxFor(IpKey(ip), limits) == limits.ipMax && MaxFor(WalletKey(wallet), limits) == limits.walletMax
    ensures IpKey(ip) != WalletKey(wallet)
  {
    KeysDiffer(ip, wallet);
    assert WalletKey(wallet)[3] == 'w' && "rl:ip:"[3] == 'i';
  }

  /** When the request was counted under a key, if it was: its arrival for its address, its second increment for its
      wallet. */
  function CountedAt(c: Call, key: string): Option<int> {
    if c.request.whitelisted then None
    else if key == IpKey(c.request.ip) then Some(c.request.now)
    else if c.request.wallet == None || key != WalletKey(c.request.wallet.value) then None
    else if c.stage.Admitted? then Some(c.stage.at)
    else None
  }

  /** An admitted request counts under its address when it arrived, under its wallet when it resumed, and under no
      other key. */
  lemma CountsUnderItsKeys(c: Call, key: string)
    requires c.stage.Admitted? && !c.request.whitelisted
    ensures CountedAt(c, IpKey(c.request.ip)) == Some(c.request.now)
    ensures c.request.wallet.Some? ==> CountedAt(c, WalletKey(c.request.wallet.value)) == Some(c.stage.at)
    ensures key != IpKey(c.request.ip) && (c.request.wallet.Some? ==> key != WalletKey(c.request.wallet.value)) ==>
              CountedAt(c, key) == None
  {
    if c.request.wallet.Some? {
      KeysDiffer(c.request.ip, c.request.wallet.value);
    }
  }

  predicate Within(at: Option<int>, from: int, to: int) {
    at.Some? && from <= at.value < to
  }

  /** How many of the admitted requests were counted under a key in an interval. */
  function AdmittedIn(calls: seq<Call>, key: string, from: int, to: int): nat {
    if calls == [] then 0
    else
      var c := calls[|calls| - 1];
      AdmittedIn(calls[..|calls| - 1], key, from, to) +
      if c.stage.Admitted? && Within(CountedAt(c, key), from, to) then 1 else 0
  }

  /** Those and the ones still waiting. */
  function OpenIn(calls: seq<Call>, key: string, from: int, to: int): nat {
    if calls == [] then 0
    else
      OpenIn(calls[..|calls| - 1], key, from, to) + OpenOne(calls[|calls| - 1], key, from, to)
  }

  function OpenOne(c: Call, key: string, from: int, to: int): nat {
    if !c.stage.Refused? && Within(CountedAt(c, key), from, to) then 1 else 0
  }

  lemma {:induction false} AdmittedAtMostOpen(calls: seq<Call>, key: string, from: int, to: int)
    ensures AdmittedIn(calls, key, from, to) <= OpenIn(calls, key, from, to)
  {
    if calls != [] {
      AdmittedAtMostOpen(calls[..|calls| - 1], key, from, to);
    }
  }

  lemma OpenSnoc(calls: seq<Call>, c: Call, key: string, from: int, to: int)
    ensures OpenIn(calls + [c], key, from, to) == OpenIn(calls, key, from, to) + OpenOne(c, key, from, to)
  {
    assert (calls + [c])[..|calls|] == calls;
  }

  lemma {:induction false} OpenUpdate(calls: seq<Call>, i: nat, c: Call, key: string, from: int, to: int)
    requires i < |calls|
    ensures OpenIn(calls[i := c], key, from, to)
         == OpenIn(calls, key, from, to) - OpenOne(calls[i], key, from, to) + OpenOne(c, key, from, to)
  {
    var front := calls[..|calls| - 1];
    if i == |calls| - 1 {
      assert calls[i := c][..|calls| - 1] == front;
    } else {
      OpenUpdate(front, i, c, key, from, to);
      assert calls[i := c][..|calls| - 1] == front[i := c];
    }
  }

  /** A step opens at most what it passes. */
  lemma StepOpensPassed(s: Sys, a: Action, key: string, from: int, to: int, limits: Limits)
    ensures OpenIn(CallsAfter(s, a, limits), key, from, to) <=
            OpenIn(s.calls, key, from, to) +
            if KeyOf(s, a) == Some(key) && from <= Time(a) < to
               && CountOf(s.store, key, Time(a), limits.window) <= MaxFor(key, limits) then 1 else 0
  {
    match a
    case Arrive(r) =>
      OpenSnoc(s.calls, Call(r, StageAfterIp(s.store, r, limits)), key, from, to);
      MaxForKeys(r.ip, if r.wallet.Some? then r.wallet.value else "", limits);
    case Resume(i, now) =>
      if CanResume(s, i) {
        var wallet := s.calls[i].request.wallet.value;
        OpenUpdate(s.calls, i, s.calls[i].(stage := StageAfterWallet(s.store, wallet, now, limits)), key, from, to);
        MaxForKeys(s.calls[i].request.ip, wallet, limits);
      }
  }

  lemma {:induction false} OpenAtMostPassed(actions: seq<Action>, key: string, from: int, to: int, limits: Limits)
    ensures OpenIn(Run(actions, limits).calls, key, from, to) <=
            PassedIn(TimesOf(actions, key, limits), from, to, limits.window, MaxFor(key, limits))
  {
    if actions != [] {
      var front, a := actions[..|actions| - 1], actions[|actions| - 1];
      OpenAtMostPassed(front, key, from, to, limits);
      EntryIsCounter(front, key, limits);
      StepOpensPassed(Run(front, limits), a, key, from, to, limits);
      OneMore(TimesOf(front, key, limits), Time(a), from, to, limits.window, MaxFor(key, limits));
      assert TimesOf(front, key, limits) + [] == TimesOf(front, key, limits);
    }
  }

  lemma AdmittedBound(calls: seq<Call>, times: seq<int>, key: string, from: int, window: int, max: int)
    requires InOrder(times) && window >= 1 && max >= 1
    requires OpenIn(calls, key, from, from + window) <= PassedIn(times, from, from + window, window, max)
    ensures AdmittedIn(calls, key, from, from + window) <= 2 * max - 1
  {
    AdmittedAtMostOpen(calls, key, from, from + window);
    PassedInInterval(times, from, window, max);
  }

  lemma OpenAndOrdered(actions: seq<Action>, key: string, from: int, to: int, limits: Limits)
    returns (calls: seq<Call>, times: seq<int>, max: int)
    requires ClockForward(actions)
    ensures calls == Run(actions, limits).calls && max == MaxFor(key, limits) && InOrder(times)
    ensures OpenIn(calls, key, from, to) <= PassedIn(times, from, to, limits.window, max)
  {
    calls, times, max := Run(actions, limits).calls, TimesOf(actions, key, limits), MaxFor(key, limits);
    OpenAtMostPassed(actions, key, from, to, limits);
    TimesAreInOrder(actions, key, limits);
  }

  /** For every interleaving of increments under a clock that never goes back: of the requests of one IP address, or
      of one wallet, that were counted in any interval of one window's length, at most 2 * max - 1 get through. */
  lemma AdmittedInInterval(actions: seq<Action>, key: string, from: int, limits: Limits)
    requires ClockForward(actions) && limits.window >= 1 && MaxFor(key, limits) >= 1
    ensures AdmittedIn(Run(actions, limits).calls, key, from, from + limits.window) <= 2 * MaxFor(key, limits) - 1
  {
    var calls, times, max := OpenAndOrdered(actions, key, from, from + limits.window, limits);
    AdmittedBound(calls, times, key, from, limits.window, max);
  }

  // ---- The bound is met by requests ----

  /** One request of an address without a wallet at each of these times. */
  function Visits(ip: string, times: seq<int>): seq<Action> {
    if times == [] then []
    else Visits(ip, times[..|times| - 1]) + [Arrive(Request(ip, None, false, times[|times| - 1]))]
  }

  lemma {:induction false} VisitTimes(ip: string, times: seq<int>)
    ensures |Visits(ip, times)| == |times|
    ensures forall i :: 0 <= i < |times| ==> Time(Visits(ip, times)[i]) == times[i]
  {
    if times != [] {
      VisitTimes(ip, times[..|times| - 1]);
    }
  }

  lemma OneVisit(s: Sys, ip: string, t: int, from: int, to: int, limits: Limits)
    ensures var a := Arrive(Request(ip, None, false, t));
            var count := CountOf(s.store, IpKey(ip), t, limits.window);
            && Lookup(Step(s, a, limits).store, IpKey(ip)) == Some(Incr(Lookup(s.store, IpKey(ip)), t, limits.window))
            && AdmittedIn(Step(s, a, limits).calls, IpKey(ip), from, to)
            == AdmittedIn(s.calls, IpKey(ip), from, to) + (if from <= t < to && count <= limits.ipMax then 1 else 0)
  {
    var c := Call(Request(ip, None, false, t), StageAfterIp(s.store, Request(ip, None, false, t), limits));
    assert (s.calls + [c])[..|s.calls|] == s.calls;
  }

  /** Of one address's own requests exactly those are admitted whose increment stays within the limit. */
  lemma {:induction false} VisitsAdmitted(ip: string, times: seq<int>, from: int, to: int, limits: Limits)
    ensures var s := Run(Visits(ip, times), limits);
            && Lookup(s.store, IpKey(ip)) == Counter(times, limits.window)
            && AdmittedIn(s.calls, IpKey(ip), from, to) == PassedIn(times, from, to, limits.window, limits.ipMax)
  {
    if times != [] {
      var front, t := times[..|times| - 1], times[|times| - 1];
      VisitsAdmitted(ip, front, from, to, limits);
      var actions := Visits(ip, times);
      assert actions[..|actions| - 1] == Visits(ip, front) && actions[|actions| - 1].Arrive?;
      OneVisit(Run(Visits(ip, front), limits), ip, t, from, to, limits);
    }
  }

  /** So for every limit some requests of one address get 2 * max - 1 through in one window's length. */
  lemma RequestBoundIsMet(ip: string, limits: Limits) returns (actions: seq<Action>)
    requires limits.window >= 2 && limits.ipMax >= 1
    ensures ClockForward(actions)
    ensures AdmittedIn(Run(actions, limits).calls, IpKey(ip), limits.window - 1, limits.window - 1 + limits.window)
         == 2 * limits.ipMax - 1
  {
    var times := BoundIsMet(limits.window, limits.ipMax);
    actions := Visits(ip, times);
    VisitTimes(ip, times);
    VisitsAdmitted(ip, times, limits.window - 1, limits.window - 1 + limits.window, limits);
  }
}
