/**
 The distributed authentication manager as the server runs it: three tables changed in place, each method
 against the operation of SessionCache it carries out. `SESSION_TIMEOUT.count()` and the random session id
 are parameters, and so is the clock, which every call reads once.
 */
module AuthManager {
  import opened Options
  import opened SessionCache
  import opened Strings

  class DistributedAuthManager {
    const clusterId: string
    const sessionTimeout: nat
    var healthy: bool
    var sessionCache: map<string, Entry>
    var userCache: map<string, string>
    var cacheExpiry: map<string, int>

    function View(): Auth
      reads this
    {
      Auth(healthy, clusterId, sessionCache, userCache, cacheExpiry)
    }

    constructor (clusterId: string, sessionTimeout: nat)
      ensures View() == Auth(true, clusterId, map[], map[], map[]) && this.sessionTimeout == sessionTimeout
    {
      this.clusterId, this.sessionTimeout := clusterId, sessionTimeout;
      healthy, sessionCache, userCache, cacheExpiry := true, map[], map[], map[];
    }

    method UpdateLocalCache(key: string, value: string, ttl: int, now: int)
      modifies this`userCache, this`cacheExpiry
      ensures View() == Remember(old(View()), key, value, now + ttl)
    {
      userCache := userCache[key := value];
      cacheExpiry := cacheExpiry[key := now + ttl];
    }

    method GetFromLocalCache(key: string, now: int) returns (value: string)
      ensures value == Cached(View(), key, now)
    {
      if key !in userCache { return ""; }
      if key in cacheExpiry && now > cacheExpiry[key] { return ""; }
      value := userCache[key];
    }

    method InvalidateLocalCache(key: string)
      modifies this`userCache, this`cacheExpiry
      ensures View() == Forget(old(View()), key)
    {
      userCache := userCache - {key};
      cacheExpiry := cacheExpiry - {key};
    }

    method CreateSession(username: string, clientInfo: string, drawn: string, now: int) returns (sessionId: string)
      modifies this
      ensures View() == After(old(View()), Create(drawn, username, clientInfo, now), sessionTimeout)
      ensures sessionId == if old(healthy) && username != "" then drawn else ""
    {
      if !healthy || username == "" { return ""; }
      sessionId := drawn;
      var expiry := now + sessionTimeout;
      var key := SessionKey(View(), sessionId);
      sessionCache := sessionCache[key := Entry(username + ":" + clientInfo, now + (expiry - now))];
      UpdateLocalCache(key, username + ":" + clientInfo, expiry - now, now);
    }

    /** The two halves of the stored value, and two empty strings when there is none in time. */
    method GetSessionFromRedis(sessionId: string, now: int) returns (user: string, clientInfo: string)
      ensures user == (var answer := StoreAnswer(View(), sessionId, now); if answer.Some? then answer.value else "")
      ensures user != "" ==> user + ":" + clientInfo == sessionCache[SessionKey(View(), sessionId)].value
    {
      var key := SessionKey(View(), sessionId);
      if key !in sessionCache || now > sessionCache[key].expiry { return "", ""; }
      var value := sessionCache[key].value;
      var colonPos := Find(value, ":", 0);
      if colonPos.None? { return "", ""; }
      user, clientInfo := value[..colonPos.value], value[colonPos.value + 1..];
      assert value[colonPos.value..colonPos.value + 1] == ":";
    }

    method ValidateSession(sessionId: string, now: int) returns (username: Option<string>)
      modifies this`userCache, this`cacheExpiry
      ensures (username, View()) == Validated(old(View()), sessionId, now)
    {
      if !healthy || sessionId == "" { return None; }
      var key := SessionKey(View(), sessionId);
      var cached := GetFromLocalCache(key, now);
      if cached != "" {
        var colonPos := Find(cached, ":", 0);
        if colonPos.Some? { return Some(cached[..colonPos.value]); }
      }
      var user, clientInfo := GetSessionFromRedis(sessionId, now);
      if user == "" { return None; }
      UpdateLocalCache(key, user + ":" + clientInfo, CACHE_TTL, now);
      username := Some(user);
    }

    method InvalidateSession(sessionId: string)
      modifies this
      ensures View() == After(old(View()), Invalidate(sessionId), sessionTimeout)
    {
      if !healthy || sessionId == "" { return; }
      var key := SessionKey(View(), sessionId);
      sessionCache := sessionCache - {key};
      InvalidateLocalCache(key);
    }

    /** The entries are visited in the order of the hash tables, which is arbitrary. */
    method CleanupExpiredCache(now: int)
      modifies this
      ensures View() == After(old(View()), Cleanup(now), sessionTimeout)
    {
      CleanupSessions(now);
      CleanupCache(now);
    }

    method CleanupSessions(now: int)
      modifies this`sessionCache
      ensures sessionCache == Cleaned(old(View()), now).sessions
    {
      var todo := sessionCache.Keys;
      while todo != {}
        invariant todo <= sessionCache.Keys
        invariant forall k :: k in sessionCache ==> k in old(sessionCache) && sessionCache[k] == old(sessionCache)[k]
        invariant forall k :: k in old(sessionCache) && (k in todo || now <= old(sessionCache)[k].expiry) ==> k in sessionCache
        invariant forall k :: k in sessionCache && k !in todo ==> now <= sessionCache[k].expiry
        decreases |todo|
      {
        var key :| key in todo;
        if now > sessionCache[key].expiry {
          sessionCache := sessionCache - {key};
        }
        todo := todo - {key};
      }
    }

    method CleanupCache(now: int)
      modifies this`userCache, this`cacheExpiry
      ensures userCache == Cleaned(old(View()), now).cache && cacheExpiry == Cleaned(old(View()), now).cacheExpiry
    {
      var todo := cacheExpiry.Keys;
      while todo != {}
        invariant todo <= cacheExpiry.Keys
        invariant forall k :: k in cacheExpiry ==> k in old(cacheExpiry) && cacheExpiry[k] == old(cacheExpiry)[k]
        invariant forall k :: k in old(cacheExpiry) && (k in todo || now <= old(cacheExpiry)[k]) ==> k in cacheExpiry
        invariant forall k :: k in cacheExpiry && k !in todo ==> now <= cacheExpiry[k]
        invariant forall k :: k in userCache ==> k in old(userCache) && userCache[k] == old(userCache)[k]
        invariant forall k :: k in old(userCache) && (k in cacheExpiry || k !in old(cacheExpiry)) ==> k in userCache
        invariant forall k :: k in userCache && k in old(cacheExpiry) ==> k in cacheExpiry
        decreases |todo|
      {
        var key :| key in todo;
        if now > cacheExpiry[key] {
          userCache := userCache - {key};
          cacheExpiry := cacheExpiry - {key};
        }
        todo := todo - {key};
      }
    }

    /** addUser and updateUserPassword: users are written straight into the cache. */
    method StoreUser(username: string, hashedPassword: string, now: int) returns (ok: bool)
      modifies this`userCache, this`cacheExpiry
      ensures View() == After(old(View()), SessionCache.StoreUser(username, hashedPassword, now), sessionTimeout)
      ensures ok == (healthy && username != "")
    {
      if !healthy || username == "" { return false; }
      userCache := userCache[UserKey(View(), username) := hashedPassword];
      UpdateLocalCache(UserKey(View(), username), hashedPassword, CACHE_TTL, now);
      ok := true;
    }

    method RemoveUser(username: string) returns (ok: bool)
      modifies this`userCache, this`cacheExpiry
      ensures View() == After(old(View()), SessionCache.RemoveUser(username), sessionTimeout)
      ensures ok == (healthy && username != "" && UserKey(View(), username) in old(userCache))
    {
      if !healthy || username == "" { return false; }
      var key := UserKey(View(), username);
      if key !in userCache { return false; }
      userCache := userCache - {key};
      InvalidateLocalCache(key);
      ok := true;
    }
  }
}
