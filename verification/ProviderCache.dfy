/** The bounded cache of Databricks providers, evicted oldest first. */
module ProviderCache {
  const CACHE_MAX := 256

  datatype PromptCache = Yes | No | Unset

  datatype Provider = Provider(apiKey: string, baseUrl: string, promptCache: PromptCache)

  function FlagText(flag: PromptCache): string {
    match flag
    case Yes => "true"
    case No => "false"
    case Unset => "undefined"
  }

  function CacheKey(apiKey: string, servingUrl: string, flag: PromptCache): string {
    apiKey + "::" + servingUrl + "::" + FlagText(flag)
  }

  /** The most recently created keys that the cache can hold. */
  function Recent<K>(created: seq<K>): seq<K> {
    if |created| <= CACHE_MAX then created else created[|created| - CACHE_MAX..]
  }

  /** Which keys were ever created, in order: one that is cached is not created again. */
  function Creates<K(==)>(created: seq<K>, key: K): seq<K> {
    if key in Recent(created) then created else created + [key]
  }

  function CreatesAll<K(==)>(calls: seq<K>): seq<K> {
    if calls == [] then [] else Creates(CreatesAll(calls[..|calls| - 1]), calls[|calls| - 1])
  }

  // ---- The joined key ----

  predicate ColonFree(text: string) { ':' !in text }

  lemma LastColon(x: string, a: string, y: string, b: string)
    requires ColonFree(a) && ColonFree(b) && x + ":" + a == y + ":" + b
    ensures a == b && x == y
  {
    var text := x + ":" + a;
    assert text[|x|] == ':' && text[|y|] == ':';
    assert forall i :: |x| < i < |text| ==> text[i] == a[i - |x| - 1];
    assert forall i :: |y| < i < |text| ==> text[i] == b[i - |y| - 1];
    assert |x| == |y|;
    assert text[..|x|] == x && text[..|x|] == y;
    assert text[|x| + 1..] == a && text[|x| + 1..] == b;
  }

  lemma FlagsDiffer(a: PromptCache, b: PromptCache)
    ensures ColonFree(FlagText(a))
    ensures FlagText(a) == FlagText(b) ==> a == b
  {
    assert |FlagText(Yes)| == 4 && |FlagText(No)| == 5 && |FlagText(Unset)| == 9;
  }

  /** Two API keys that no URLs can make look alike: equal, or neither starts the other at a separator. */
  predicate Separable(key: string, key': string) {
    key == key' || (!(key + "::" <= key' + "::") && !(key' + "::" <= key + "::"))
  }

  ghost predicate Collide(key: string, key': string) {
    exists url, url', flag, flag' :: CacheKey(key, url, flag) == CacheKey(key', url', flag')
  }

  lemma ShorterStarts(key: string, key': string, rest: string, rest': string)
    requires key + "::" + rest == key' + "::" + rest' && |key| <= |key'|
    ensures key + "::" <= key' + "::"
  {
    var text := key + "::" + rest;
    assert text[..|key| + 2] == key + "::" && text[..|key'| + 2] == key' + "::";
    assert text[..|key'| + 2][..|key| + 2] == text[..|key| + 2];
  }

  lemma StartsCollide(key: string, key': string)
    requires key + "::" <= key' + "::"
    ensures Collide(key, key') && Collide(key', key)
  {
    var url := (key' + "::")[|key| + 2..];
    assert key + "::" + url == key' + "::" + "";
    assert CacheKey(key, url, Unset) == CacheKey(key', "", Unset);
  }

  /** Exactly which two API keys can be joined into one cache key. */
  lemma CollisionsExactly(key: string, key': string)
    requires key != key'
    ensures Collide(key, key') <==> !Separable(key, key')
  {
    if Collide(key, key') {
      var url, url', flag, flag' :| CacheKey(key, url, flag) == CacheKey(key', url', flag');
      SeparatedKeys(key, url, flag, key', url', flag');
    }
    if key + "::" <= key' + "::" { StartsCollide(key, key'); }
    if key' + "::" <= key + "::" { StartsCollide(key', key); }
  }

  lemma SeparatedKeys(key: string, url: string, flag: PromptCache, key': string, url': string, flag': PromptCache)
    requires CacheKey(key, url, flag) == CacheKey(key', url', flag')
    ensures Separable(key, key') ==> key == key'
  {
    hide FlagText;
    var rest, rest' := url + "::" + FlagText(flag), url' + "::" + FlagText(flag');
    assert CacheKey(key, url, flag) == key + "::" + rest;
    assert CacheKey(key', url', flag') == key' + "::" + rest';
    if |key| <= |key'| {
      ShorterStarts(key, key', rest, rest');
    } else {
      ShorterStarts(key', key, rest', rest);
    }
  }

  /** For separable API keys, the joined key tells key, URL and flag apart. */
  lemma CacheKeyIsInjective(
      key: string, url: string, flag: PromptCache, key': string, url': string, flag': PromptCache)
    requires Separable(key, key')
    requires CacheKey(key, url, flag) == CacheKey(key', url', flag')
    ensures key == key' && url == url' && flag == flag'
  {
    SeparatedKeys(key, url, flag, key', url', flag');
    hide FlagText;
    var middle, middle' := key + "::" + url + ":", key + "::" + url' + ":";
    assert CacheKey(key, url, flag) == middle + ":" + FlagText(flag);
    assert CacheKey(key', url', flag') == middle' + ":" + FlagText(flag');
    FlagsDiffer(flag, flag');
    FlagsDiffer(flag', flag);
    LastColon(middle, FlagText(flag), middle', FlagText(flag'));
    assert middle[|key| + 2..|middle| - 1] == url && middle'[|key| + 2..|middle'| - 1] == url';
  }

  /** API keys without a colon are separable. */
  lemma ColonFreeAreSeparable(key: string, key': string)
    requires ColonFree(key) && ColonFree(key')
    ensures Separable(key, key')
  {
    if key + "::" <= key' + "::" { SameBeforeColon(key, key'); }
    if key' + "::" <= key + "::" { SameBeforeColon(key', key); }
  }

  lemma BeforeColons(key: string, i: nat)
    requires i <= |key|
    ensures (key + "::")[i] == if i < |key| then key[i] else ':'
  {
  }

  lemma SameBeforeColon(key: string, key': string)
    requires ColonFree(key') && key + "::" <= key' + "::"
    ensures key == key'
  {
    var text := key' + "::";
    BeforeColons(key', |key|);
    assert (key + "::")[|key|] == ':';
    assert text[..|key| + 2] == key + "::";
    assert key == text[..|key|];
  }

  /** Said outright: the last 256 of the keys created, or all of them. */
  lemma RecentExactly<K>(created: seq<K>)
    ensures |Recent(created)| == if |created| < 256 then |created| else 256
    ensures Recent(created) == created[|created| - |Recent(created)|..]
  {
  }

  lemma RecentMore<K>(created: seq<K>, key: K)
    ensures |Recent(created)| == if |created| < CACHE_MAX then |created| else CACHE_MAX
    ensures |created| >= CACHE_MAX ==> Recent(created + [key]) == Recent(created)[1..] + [key]
    ensures |created| < CACHE_MAX ==> Recent(created + [key]) == Recent(created) + [key]
  {
  }

  /**
   * After any calls, the cached keys are all different, no more than the cache holds, and the last
   * call's key is among them.
   */
  lemma {:induction false} CacheAfter<K>(calls: seq<K>)
    ensures var cached := Recent(CreatesAll(calls));
            && |cached| <= CACHE_MAX
            && (forall i, j :: 0 <= i < j < |cached| ==> cached[i] != cached[j])
            && (calls != [] ==> calls[|calls| - 1] in cached)
  {
    hide Recent;
    if calls == [] {
      NothingCached<K>();
    } else {
      var created, key := CreatesAll(calls[..|calls| - 1]), calls[|calls| - 1];
      CacheAfter(calls[..|calls| - 1]);
      if key !in Recent(created) {
        RecentMore(created, key);
        AppendDistinct(Recent(created), key);
      }
    }
  }

  lemma NothingCached<K>()
    ensures Recent<K>([]) == []
  {
  }

  lemma AppendDistinct<K>(cached: seq<K>, key: K)
    requires forall i, j :: 0 <= i < j < |cached| ==> cached[i] != cached[j]
    requires key !in cached
    ensures var more := cached + [key];
            && (forall i, j :: 0 <= i < j < |more| ==> more[i] != more[j])
            && more[|more| - 1] == key
    ensures cached != [] ==>
              var more := cached[1..] + [key];
              && (forall i, j :: 0 <= i < j < |more| ==> more[i] != more[j])
              && more[|more| - 1] == key
  {
  }

  /** The module-level map: keys in insertion order, and the provider of each. */
  class DatabricksProviders {
    var keys: seq<string>
    var providers: map<string, Provider>
    /** Every key for which a provider was created. */
    ghost var created: seq<string>

    /** Each key is there once, and its provider was built from the parts it joins. */
    ghost predicate Consistent()
      reads this
    {
      && (forall i, j :: 0 <= i < j < |keys| ==> keys[i] != keys[j])
      && (forall k :: k in keys <==> k in providers)
      && (forall k :: k in providers ==>
            CacheKey(providers[k].apiKey, providers[k].baseUrl, providers[k].promptCache) == k)
    }

    ghost predicate Valid()
      reads this
    {
      keys == Recent(created) && Consistent()
    }

    /** Every provider in the cache is for one of these API keys. */
    ghost predicate UsesOnly(apiKeys: set<string>)
      reads this
    {
      forall k :: k in providers ==> providers[k].apiKey in apiKeys
    }

    constructor ()
      ensures Valid() && UsesOnly({}) && created == []
    {
      keys, providers, created := [], map[], [];
    }

    /**
     * What the cache answers to one call. It is the caller's own when the caller's API key
     * is separable from those used before; the cache holds the most recently created keys, in
     * creation order.
     */
    method Get(
        apiKey: string, baseUrl: string, modelId: string, promptCache: PromptCache,
        servingUrl: (string, string) -> string, ghost before: set<string>)
      returns (provider: Provider)
      requires Valid() && UsesOnly(before)
      modifies this
      ensures Valid() && |keys| <= 256 && UsesOnly(before + {apiKey})
      ensures created == Creates(old(created), CacheKey(apiKey, servingUrl(baseUrl, modelId), promptCache))
      ensures (forall k :: k in before ==> Separable(apiKey, k))
                ==> provider == Provider(apiKey, servingUrl(baseUrl, modelId), promptCache)
    {
      var url := servingUrl(baseUrl, modelId);
      var key := CacheKey(apiKey, url, promptCache);
      if key !in providers {
        Evict(key, before);
        Insert(key, Provider(apiKey, url, promptCache));
      }
      provider := providers[key];
      if Separable(apiKey, provider.apiKey) {
        CacheKeyIsInjective(apiKey, url, promptCache, provider.apiKey, provider.baseUrl, provider.promptCache);
      }
    }

    /** Makes room for one more provider, oldest first. */
    method Evict(ghost missing: string, ghost apiKeys: set<string>)
      requires UsesOnly(apiKeys) && Consistent() && |keys| <= CACHE_MAX && missing !in providers
      modifies this`keys, this`providers
      ensures Consistent() && missing !in providers
      ensures keys == if |old(keys)| == CACHE_MAX then old(keys)[1..] else old(keys)
      ensures UsesOnly(apiKeys)
    {
      hide CacheKey;
      while |keys| >= CACHE_MAX
        invariant Consistent() && missing !in providers && UsesOnly(apiKeys)
        invariant keys == old(keys) || (|old(keys)| == CACHE_MAX && keys == old(keys)[1..])
        decreases |keys|
      {
        var oldest := keys[0];
        assert keys == [oldest] + keys[1..];
        keys := keys[1..];
        providers := providers - {oldest};
      }
    }

    method Insert(key: string, provider: Provider)
      requires Consistent() && key !in providers
      requires key == CacheKey(provider.apiKey, provider.baseUrl, provider.promptCache)
      requires keys == if |created| >= CACHE_MAX then Recent(created)[1..] else Recent(created)
      modifies this
      ensures Valid() && created == old(created) + [key]
      ensures providers == old(providers)[key := provider]
    {
      hide CacheKey;
      RecentMore(created, key);
      keys := keys + [key];
      providers := providers[key := provider];
      created := created + [key];
    }
  }
}
