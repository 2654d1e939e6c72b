/** The in-memory cache of backend/services/cacheService.js and the key scoping of backend/lib/tenantContext.js. */
module TaggedCache {
  import opened Wrappers

  // ---- Keys of one tenant ----

  datatype Tenant = Tenant(slug: string, id: string)

  /** The request's tenant, if any, and whether scoping is bypassed. */
  datatype Context = Context(tenant: Option<Tenant>, bypassed: bool)

  function Name(t: Tenant): string {
    if t.slug == "" then t.id else t.slug
  }

  function Prefix(name: string): string {
    "tenant:" + name + ":"
  }

  function ScopeCacheKey(key: string, ctx: Context): string {
    if ctx.bypassed || ctx.tenant.None? then key else Prefix(Name(ctx.tenant.value)) + key
  }

  function ScopeCacheTag(tag: string, ctx: Context): string {
    if ctx.bypassed || ctx.tenant.None? then tag else Prefix(Name(ctx.tenant.value)) + ("tag:" + tag)
  }

  predicate StartsWith(key: string, prefix: string) {
    prefix <= key
  }

  /** The part of a text before its first colon. */
  function BeforeColon(s: string): string {
    if s == "" || s[0] == ':' then "" else [s[0]] + BeforeColon(s[1..])
  }

  lemma {:induction false} BeforeColonOf(name: string, rest: string)
    requires ':' !in name
    ensures BeforeColon(name + ":" + rest) == name
  {
    if name != "" {
      assert name[0] in name;
      BeforeColonOf(name[1..], rest);
      assert (name + ":" + rest)[1..] == name[1..] + ":" + rest;
    }
  }

  lemma ColonEndsName(a: string, b: string, y: string)
    requires ':' !in a && ':' !in b && a + ":" <= b + ":" + y
    ensures a == b
  {
    var whole := b + ":" + y;
    BeforeColonOf(b, y);
    BeforeColonOf(a, whole[|a| + 1..]);
    assert whole == (a + ":") + whole[|a| + 1..];
  }

  lemma PrefixNamesTenant(a: string, b: string, key: string)
    requires ':' !in a && ':' !in b && StartsWith(Prefix(b) + key, Prefix(a))
    ensures a == b
  {
    var whole := Prefix(b) + key;
    assert Prefix(a)[7..] == a + ":";
    assert whole[7..] == b + ":" + key;
    assert Prefix(a)[7..] <= whole[7..];
    ColonEndsName(a, b, key);
  }

  /** With colon-free names, two tenants' scoped keys are equal only for the same tenant and the same key. */
  lemma ScopedKeysDoNotCollide(k: string, ctx: Context, l: string, other: Context)
    requires !ctx.bypassed && ctx.tenant.Some? && ':' !in Name(ctx.tenant.value)
    requires !other.bypassed && other.tenant.Some? && ':' !in Name(other.tenant.value)
    ensures ScopeCacheKey(k, ctx) == ScopeCacheKey(l, other)
       <==> Name(ctx.tenant.value) == Name(other.tenant.value) && k == l
    ensures ScopeCacheTag(k, ctx) == ScopeCacheTag(l, other)
       <==> Name(ctx.tenant.value) == Name(other.tenant.value) && k == l
  {
    var a, b := Name(ctx.tenant.value), Name(other.tenant.value);
    ScopedEqual(a, k, b, l);
    ScopedEqual(a, "tag:" + k, b, "tag:" + l);
    assert ("tag:" + k)[4..] == k && ("tag:" + l)[4..] == l;
  }

  lemma ScopedEqual(a: string, k: string, b: string, l: string)
    requires ':' !in a && ':' !in b
    ensures Prefix(a) + k == Prefix(b) + l <==> a == b && k == l
  {
    if Prefix(a) + k == Prefix(b) + l {
      assert StartsWith(Prefix(a) + k, Prefix(a));
      PrefixNamesTenant(a, b, l);
      assert (Prefix(a) + k)[|Prefix(a)|..] == k && (Prefix(b) + l)[|Prefix(b)|..] == l;
    }
  }

  /** Keys and tags are scoped exactly inside a tenant's context that is not bypassed, under the tenant's slug, or
      its id where it has no slug. */
  lemma ScopesExactlyInTenant(key: string, ctx: Context)
    ensures ctx.bypassed || ctx.tenant.None? ==> ScopeCacheKey(key, ctx) == key && ScopeCacheTag(key, ctx) == key
    ensures !ctx.bypassed && ctx.tenant.Some? ==>
              var name := if |ctx.tenant.value.slug| > 0 then ctx.tenant.value.slug else ctx.tenant.value.id;
              && ScopeCacheKey(key, ctx) == "tenant:" + name + ":" + key
              && ScopeCacheTag(key, ctx) == "tenant:" + name + ":" + ("tag:" + key)
  {
  }

  // ---- The store as a state machine ----

  datatype Entry = Entry(value: Option<string>, expiresAt: int)

  datatype State = State(store: map<string, Entry>, tags: map<string, set<string>>)

  /** The synchronous steps the asynchronous operations are made of, each with the clock's reading; keys and
      tags are already scoped. */
  datatype Action =
    | Get(key: string, now: int)
    | Set(key: string, value: Option<string>, ttlSeconds: int, now: int)
    | TagAdd(tag: string, key: string, now: int)
    | Del(key: string, now: int)
    | DelPrefix(prefix: string, now: int)
    | DelTag(tag: string, now: int)

  function Remove<K, V>(m: map<K, V>, key: K): map<K, V> {
    map k | k in m && k != key :: m[k]
  }

  function TagKeys(s: State, tag: string): set<string> {
    if tag in s.tags then s.tags[tag] else {}
  }

  function Step(s: State, a: Action): State {
    match a
    case Get(key, now) =>
      if key in s.store && now > s.store[key].expiresAt then s.(store := Remove(s.store, key)) else s
    case Set(key, value, ttl, now) => s.(store := s.store[key := Entry(value, now + ttl * 1000)])
    case TagAdd(tag, key, _) => s.(tags := s.tags[tag := TagKeys(s, tag) + {key}])
    case Del(key, _) => s.(store := Remove(s.store, key))
    case DelPrefix(prefix, _) => s.(store := map k | k in s.store && !StartsWith(k, prefix) :: s.store[k])
    case DelTag(tag, _) => State(s.store - TagKeys(s, tag), Remove(s.tags, tag))
  }

  function Reply(s: State, key: string, now: int): Option<string> {
    if key in s.store && now <= s.store[key].expiresAt then s.store[key].value else None
  }

  function RunFrom(s: State, actions: seq<Action>): State {
    if actions == [] then s else Step(RunFrom(s, actions[..|actions| - 1]), actions[|actions| - 1])
  }

  function Run(actions: seq<Action>): State {
    RunFrom(State(map[], map[]), actions)
  }

  lemma RunFromSnoc(s: State, actions: seq<Action>, a: Action)
    ensures RunFrom(s, actions + [a]) == Step(RunFrom(s, actions), a)
  {
    assert (actions + [a])[..|actions|] == actions;
  }

  // ---- The cache object ----

  function TagAdds(tags: seq<string>, key: string, ctx: Context, now: int): seq<Action> {
    if tags == [] then []
    else TagAdds(tags[..|tags| - 1], key, ctx, now) + [TagAdd(ScopeCacheTag(tags[|tags| - 1], ctx), key, now)]
  }

  class Cache {
    var memStore: map<string, Entry>
    var memTags: map<string, set<string>>

    constructor ()
      ensures Value() == Run([])
    {
      memStore, memTags := map[], map[];
    }

    ghost function Value(): State
      reads this
    {
      State(memStore, memTags)
    }

    method Get(key: string, ctx: Context, now: int) returns (value: Option<string>)
      modifies this
      ensures Value() == Step(old(Value()), Action.Get(ScopeCacheKey(key, ctx), now))
      ensures value == Reply(old(Value()), ScopeCacheKey(key, ctx), now)
    {
      var scopedKey := ScopeCacheKey(key, ctx);
      if scopedKey !in memStore {
        return None;
      }
      var entry := memStore[scopedKey];
      if now > entry.expiresAt {
        memStore := memStore - {scopedKey};
        assert memStore == Remove(old(memStore), scopedKey);
        return None;
      }
      return entry.value;
    }

    method Set(key: string, value: Option<string>, ttlSeconds: int, ctx: Context, now: int)
      modifies this
      ensures Value() == Step(old(Value()), Action.Set(ScopeCacheKey(key, ctx), value, ttlSeconds, now))
    {
      memStore := memStore[ScopeCacheKey(key, ctx) := Entry(value, now + ttlSeconds * 1000)];
    }

    method AddTag(tag: string, key: string, ghost now: int)
      modifies this`memTags
      ensures Value() == Step(old(Value()), TagAdd(tag, key, now))
    {
      if tag !in memTags {
        memTags := memTags[tag := {}];
      }
      memTags := memTags[tag := memTags[tag] + {key}];
      assert memTags == old(Step(Value(), TagAdd(tag, key, now)).tags);
    }

    method SetWithTags(key: string, value: Option<string>, ttlSeconds: int, tags: seq<string>, ctx: Context, now: int)
      modifies this
      ensures var scopedKey := ScopeCacheKey(key, ctx);
              Value() == RunFrom(Step(old(Value()), Action.Set(scopedKey, value, ttlSeconds, now)),
                                 TagAdds(tags, scopedKey, ctx, now))
    {
      var scopedKey := ScopeCacheKey(key, ctx);
      Set(key, value, ttlSeconds, ctx, now);
      ghost var stored := Value();
      for i := 0 to |tags|
        invariant Value() == RunFrom(stored, TagAdds(tags[..i], scopedKey, ctx, now))
      {
        assert tags[..i + 1][..i] == tags[..i];
        var tag := ScopeCacheTag(tags[i], ctx);
        RunFromSnoc(stored, TagAdds(tags[..i], scopedKey, ctx, now), TagAdd(tag, scopedKey, now));
        AddTag(tag, scopedKey, now);
      }
      assert tags[..|tags|] == tags;
    }

    method Invalidate(key: string, ctx: Context, ghost now: int)
      modifies this
      ensures Value() == Step(old(Value()), Del(ScopeCacheKey(key, ctx), now))
    {
      memStore := memStore - {ScopeCacheKey(key, ctx)};
      assert memStore == Remove(old(memStore), ScopeCacheKey(key, ctx));
    }

    method InvalidateRaw(prefix: string, ghost now: int)
      modifies this`memStore
      ensures Value() == Step(old(Value()), DelPrefix(prefix, now))
    {
      var keys := memStore.Keys;
      while keys != {}
        invariant keys <= old(memStore).Keys
        invariant memStore == map k | k in old(memStore) && (k in keys || !StartsWith(k, prefix)) :: old(memStore)[k]
        decreases |keys|
      {
        var key :| key in keys;
        if StartsWith(key, prefix) {
          memStore := memStore - {key};
        }
        keys := keys - {key};
      }
    }

    method InvalidatePrefix(prefix: string, ctx: Context, ghost now: int)
      modifies this
      ensures Value() == Step(old(Value()), DelPrefix(ScopeCacheKey(prefix, ctx), now))
    {
      InvalidateRaw(ScopeCacheKey(prefix, ctx), now);
    }

    method FlushTenant(slug: string, ghost now: int)
      modifies this
      ensures Value() == Step(old(Value()), DelPrefix(Prefix(slug), now))
    {
      InvalidateRaw(Prefix(slug), now);
    }

    method InvalidateTag(tag: string, ctx: Context, ghost now: int)
      modifies this
      ensures Value() == Step(old(Value()), DelTag(ScopeCacheTag(tag, ctx), now))
    {
      var scopedTag := ScopeCacheTag(tag, ctx);
      var keys := if scopedTag in memTags then memTags[scopedTag] else {};
      ghost var all := keys;
      while keys != {}
        invariant keys <= all && memTags == old(memTags)
        invariant memStore == old(memStore) - (all - keys)
        decreases |keys|
      {
        var key :| key in keys;
        memStore := memStore - {key};
        keys := keys - {key};
      }
      memTags := memTags - {scopedTag};
      assert memTags == Remove(old(memTags), scopedTag);
    }
  }

  /** A read drops an entry that has expired and changes nothing else. */
  lemma ReadDropsExpired(s: State, key: string, now: int)
    ensures var after := Step(s, Get(key, now));
            && after.tags == s.tags
            && (key in after.store <==> key in s.store && now <= s.store[key].expiresAt)
            && (forall k :: k in s.store && k != key ==> k in after.store)
            && (forall k :: k in after.store ==> k in s.store && after.store[k] == s.store[k])
  {
  }

  // ---- The history a cache should answer from ----

  /** The keys tagged since the tag was last cleared. */
  function Tagged(actions: seq<Action>, tag: string): set<string> {
    if actions == [] then {}
    else
      var before := Tagged(actions[..|actions| - 1], tag);
      match actions[|actions| - 1]
      case TagAdd(t, key, _) => if t == tag then before + {key} else before
      case DelTag(t, _) => if t == tag then {} else before
      case _ => before
  }

  /** The last step of a history invalidates the key. */
  predicate Kills(actions: seq<Action>, key: string)
    requires actions != []
  {
    match actions[|actions| - 1]
    case Del(k, _) => k == key
    case DelPrefix(prefix, _) => StartsWith(key, prefix)
    case DelTag(tag, _) => key in Tagged(actions[..|actions| - 1], tag)
    case _ => false
  }

  /** What a reader of the history sees: the last write, unless it was invalidated since or has expired. */
  function Spec(actions: seq<Action>, key: string, now: int): Option<string> {
    if actions == [] then None
    else
      var last := actions[|actions| - 1];
      if last.Set? && last.key == key then
        if now <= last.now + last.ttlSeconds * 1000 then last.value else None
      else if Kills(actions, key) then None
      else Spec(actions[..|actions| - 1], key, now)
  }

  /** The clock never goes back, and has not passed `now`. */
  predicate InOrder(actions: seq<Action>, now: int) {
    actions == [] ||
    (actions[|actions| - 1].now <= now && InOrder(actions[..|actions| - 1], actions[|actions| - 1].now))
  }

  lemma {:induction false} TagsFollowHistory(actions: seq<Action>, tag: string)
    ensures TagKeys(Run(actions), tag) == Tagged(actions, tag)
  {
    if actions != [] {
      TagsFollowHistory(actions[..|actions| - 1], tag);
    }
  }

  lemma {:induction false} InOrderLater(actions: seq<Action>, now: int, later: int)
    requires InOrder(actions, now) && now <= later
    ensures InOrder(actions, later)
  {
  }

  /** Whatever was done to the cache, a read answers exactly from the history. */
  lemma {:induction false} CacheRefinesHistory(actions: seq<Action>, key: string, now: int)
    requires InOrder(actions, now)
    ensures Reply(Run(actions), key, now) == Spec(actions, key, now)
    decreases |actions|
  {
    if actions != [] {
      var front, last := actions[..|actions| - 1], actions[|actions| - 1];
      InOrderLater(front, last.now, now);
      CacheRefinesHistory(front, key, now);
      if last.DelTag? {
        TagsFollowHistory(front, last.tag);
      }
    }
  }

  lemma {:induction false} TaggedSince(actions: seq<Action>, i: nat, tag: string, key: string)
    requires i < |actions| && AddsTag(actions[i], tag, key) && !ClearsTagAfter(actions, i, tag)
    ensures key in Tagged(actions, tag)
  {
    var n := |actions| - 1;
    if i < n {
      var front := actions[..n];
      assert !ClearsTagAfter(front, i, tag) by {
        forall j | i < j < n
          ensures front[j] == actions[j]
        {
        }
      }
      TaggedSince(front, i, tag, key);
    }
  }

  lemma {:induction false} TaggedBy(actions: seq<Action>, tag: string, key: string) returns (i: nat)
    requires key in Tagged(actions, tag)
    ensures i < |actions| && AddsTag(actions[i], tag, key) && !ClearsTagAfter(actions, i, tag)
  {
    var n := |actions| - 1;
    if AddsTag(actions[n], tag, key) {
      i := n;
    } else {
      i := TaggedBy(actions[..n], tag, key);
    }
  }

  /** A key is tagged exactly when some step tagged it and no later step cleared the tag. */
  lemma {:induction false} TaggedIff(actions: seq<Action>, tag: string, key: string)
    ensures key in Tagged(actions, tag) <==>
            exists i :: 0 <= i < |actions| && AddsTag(actions[i], tag, key) && !ClearsTagAfter(actions, i, tag)
  {
    if key in Tagged(actions, tag) {
      var i := TaggedBy(actions, tag, key);
    }
    forall i | 0 <= i < |actions| && AddsTag(actions[i], tag, key) && !ClearsTagAfter(actions, i, tag)
      ensures key in Tagged(actions, tag)
    {
      TaggedSince(actions, i, tag, key);
    }
  }

  predicate AddsTag(a: Action, tag: string, key: string) {
    a.TagAdd? && a.tag == tag && a.key == key
  }

  predicate ClearsTagAfter(actions: seq<Action>, i: int, tag: string)
    requires 0 <= i
  {
    exists j :: i < j < |actions| && actions[j].DelTag? && actions[j].tag == tag
  }

  /** No write of the key. */
  predicate NoSet(actions: seq<Action>, key: string) {
    forall i :: 0 <= i < |actions| ==> !(actions[i].Set? && actions[i].key == key)
  }

  lemma {:induction false} HiddenUntilSet(before: seq<Action>, after: seq<Action>, key: string, now: int)
    requires before != [] && Kills(before, key) && NoSet(after, key)
    ensures Spec(before + after, key, now) == None
  {
    if after == [] {
      assert before + after == before;
    } else {
      var n := |after| - 1;
      assert (before + after)[..|before + after| - 1] == before + after[..n];
      assert (before + after)[|before + after| - 1] == after[n];
      HiddenUntilSet(before, after[..n], key, now);
    }
  }

  /** After a tag is invalidated, every key ever stored under it since it was last cleared is unreadable until
      it is set again, whatever else happens. */
  lemma InvalidatedTagHidesKeys(before: seq<Action>, tag: string, at: int, after: seq<Action>, key: string, now: int)
    requires key in Tagged(before, tag) && NoSet(after, key)
    requires InOrder(before + [DelTag(tag, at)] + after, now)
    ensures Reply(Run(before + [DelTag(tag, at)] + after), key, now) == None
  {
    var cleared := before + [DelTag(tag, at)];
    assert cleared[..|before|] == before;
    HiddenUntilSet(cleared, after, key, now);
    CacheRefinesHistory(cleared + after, key, now);
  }

  lemma OneTagAdd(s: State, tag: string, key: string, now: int, t: string)
    ensures Step(s, TagAdd(tag, key, now)).store == s.store
    ensures TagKeys(Step(s, TagAdd(tag, key, now)), t) == TagKeys(s, t) + (if tag == t then {key} else {})
  {
  }

  /** setWithTags puts the key under each of its tags and leaves every other tag and every entry as it was. */
  lemma {:induction false} TagAddsTagExactly(s: State, tags: seq<string>, key: string, ctx: Context, now: int,
                                             t: string)
    ensures var after := RunFrom(s, TagAdds(tags, key, ctx, now));
            && after.store == s.store
            && TagKeys(after, t) == TagKeys(s, t) + (if HasTag(tags, t, ctx) then {key} else {})
  {
    if tags != [] {
      var front, last := tags[..|tags| - 1], tags[|tags| - 1];
      TagAddsTagExactly(s, front, key, ctx, now, t);
      RunFromSnoc(s, TagAdds(front, key, ctx, now), TagAdd(ScopeCacheTag(last, ctx), key, now));
      OneTagAdd(RunFrom(s, TagAdds(front, key, ctx, now)), ScopeCacheTag(last, ctx), key, now, t);
      assert tags == front + [last];
      HasTagSnoc(front, last, t, ctx);
    }
  }

  /** `t` is one of the tags in this context. */
  predicate HasTag(tags: seq<string>, t: string, ctx: Context) {
    exists i :: 0 <= i < |tags| && ScopeCacheTag(tags[i], ctx) == t
  }

  lemma HasTagSnoc(front: seq<string>, last: string, t: string, ctx: Context)
    ensures HasTag(front + [last], t, ctx) <==> HasTag(front, t, ctx) || ScopeCacheTag(last, ctx) == t
  {
    var all := front + [last];
    assert all[|front|] == last && forall i :: 0 <= i < |front| ==> all[i] == front[i];
  }

  /** A value set with tags can be read until it expires, and until any one of its tags is invalidated. */
  lemma AnyTagInvalidates(s: State, key: string, value: Option<string>, ttl: int, tags: seq<string>, ctx: Context,
                          now: int, i: nat, later: int)
    requires i < |tags|
    ensures var scopedKey := ScopeCacheKey(key, ctx);
            var stored := RunFrom(Step(s, Set(scopedKey, value, ttl, now)), TagAdds(tags, scopedKey, ctx, now));
            && Reply(stored, scopedKey, later) == (if later <= now + ttl * 1000 then value else None)
            && Reply(Step(stored, DelTag(ScopeCacheTag(tags[i], ctx), later)), scopedKey, later) == None
  {
    var scopedKey := ScopeCacheKey(key, ctx);
    TagAddsTagExactly(Step(s, Set(scopedKey, value, ttl, now)), tags, scopedKey, ctx, now, ScopeCacheTag(tags[i], ctx));
  }

  /** Flushing one tenant removes exactly that tenant's entries: those written in its context go, those of
      every other tenant and those written outside any tenant stay. */
  lemma FlushIsExact(s: State, slug: string, now: int, ctx: Context, key: string)
    requires ':' !in slug && (ctx.tenant.Some? ==> ':' !in Name(ctx.tenant.value))
    requires ctx.bypassed || ctx.tenant.None? ==> !StartsWith(key, "tenant:")
    ensures var scopedKey := ScopeCacheKey(key, ctx);
            var after := Step(s, DelPrefix(Prefix(slug), now)).store;
            if !ctx.bypassed && ctx.tenant.Some? && Name(ctx.tenant.value) == slug then scopedKey !in after
            else (scopedKey in after <==> scopedKey in s.store)
                 && (scopedKey in after ==> after[scopedKey] == s.store[scopedKey])
  {
    var scopedKey := ScopeCacheKey(key, ctx);
    if ctx.bypassed || ctx.tenant.None? {
      assert StartsWith(Prefix(slug), "tenant:");
    } else if StartsWith(scopedKey, Prefix(slug)) {
      PrefixNamesTenant(slug, Name(ctx.tenant.value), key);
    }
  }

  /** A prefix invalidated in one tenant's context never reaches another tenant's keys. */
  lemma PrefixStaysInTenant(s: State, prefix: string, now: int, ctx: Context, other: Context, key: string)
    requires !ctx.bypassed && ctx.tenant.Some? && ':' !in Name(ctx.tenant.value)
    requires !other.bypassed && other.tenant.Some? && ':' !in Name(other.tenant.value)
    requires Name(ctx.tenant.value) != Name(other.tenant.value)
    ensures var after := Step(s, DelPrefix(ScopeCacheKey(prefix, ctx), now));
            Reply(after, ScopeCacheKey(key, other), now) == Reply(s, ScopeCacheKey(key, other), now)
  {
    var scopedKey, scopedPrefix := ScopeCacheKey(key, other), ScopeCacheKey(prefix, ctx);
    if StartsWith(scopedKey, scopedPrefix) {
      assert StartsWith(scopedPrefix, Prefix(Name(ctx.tenant.value)));
      assert scopedKey[..|Prefix(Name(ctx.tenant.value))|] == scopedPrefix[..|Prefix(Name(ctx.tenant.value))|];
      PrefixNamesTenant(Name(ctx.tenant.value), Name(other.tenant.value), key);
    }
  }
}
