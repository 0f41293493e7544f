/** Sign-in sessions of many users in one flat cache, told apart by the printed user id in their keys. */
module Sessions {
  import opened Text
  import opened Numerals
  import opened Cache
  import opened CacheKeys

  const SESSION_HEAD := "session:user:"

  function SessionPrefix(user: int): string { Field(SESSION_HEAD, PrintInt(user)) }

  function SessionKey(user: int, token: string): string { SessionPrefix(user) + token }

  /** The user may sign requests with the token at a time. */
  predicate HasSession(store: map<string, Entry<int>>, user: int, token: string, at: int) {
    SessionKey(user, token) in Live(store, at)
  }

  /** A user's prefix covers that user's keys and nobody else's: 1 does not cover 12, 12 does not cover 1. */
  lemma {:induction false} PrefixOwnsItsKeys(user: int, other: int, token: string)
    ensures HasPrefix(SessionKey(other, token), SessionPrefix(user)) <==> user == other
  {
    NumberMatch(SESSION_HEAD, user, other, token);
  }

  lemma {:induction false} SessionKeysDiffer(user: int, token: string, other: int, token': string)
    ensures SessionKey(user, token) == SessionKey(other, token') <==> user == other && token == token'
  {
    if SessionKey(user, token) == SessionKey(other, token') {
      PrefixOwnsItsKeys(user, other, token');
      assert SessionKey(user, token)[|SessionPrefix(user)|..] == token;
      assert SessionKey(user, token')[|SessionPrefix(user)|..] == token';
    }
  }

  class CacheSessionRepository {
    const cache: InMemoryCache<int>

    constructor (cache: InMemoryCache<int>)
      ensures this.cache == cache
    {
      this.cache := cache;
    }

    method Save(user: int, token: string, ttlSeconds: int)
      requires cache.Valid()
      modifies cache
      ensures cache.Valid() && cache.clock >= old(cache.clock)
      ensures forall t :: HasSession(cache.store, user, token, t) <==> ttlSeconds <= 0 || t <= cache.clock + ttlSeconds * 1_000_000_000
      ensures forall other, token', t :: (other, token') != (user, token) ==>
        (HasSession(cache.store, other, token', t) <==> HasSession(old(cache.store), other, token', t))
    {
      cache.SetWithTTL(SessionKey(user, token), user, ttlSeconds);
      forall other, token', t | (other, token') != (user, token)
        ensures HasSession(cache.store, other, token', t) <==> HasSession(old(cache.store), other, token', t)
      {
        SessionKeysDiffer(user, token, other, token');
      }
    }

    method Delete(user: int, token: string)
      requires cache.Valid()
      modifies cache
      ensures cache.Valid() && cache.clock == old(cache.clock)
      ensures forall other, token', t :: HasSession(cache.store, other, token', t) <==>
        HasSession(old(cache.store), other, token', t) && (other, token') != (user, token)
    {
      cache.Delete(SessionKey(user, token));
      forall other, token', t
        ensures HasSession(cache.store, other, token', t) <==> HasSession(old(cache.store), other, token', t) && (other, token') != (user, token)
      {
        SessionKeysDiffer(user, token, other, token');
      }
    }

    method DeleteByUser(user: int)
      requires cache.Valid()
      modifies cache
      ensures cache.Valid() && cache.clock == old(cache.clock)
      ensures forall other, token, t :: HasSession(cache.store, other, token, t) <==>
        HasSession(old(cache.store), other, token, t) && other != user
    {
      var deleted := cache.DeleteByPrefix(SessionPrefix(user));
      forall other, token, t
        ensures HasSession(cache.store, other, token, t) <==> HasSession(old(cache.store), other, token, t) && other != user
      {
        PrefixOwnsItsKeys(user, other, token);
      }
    }

    method Exists(user: int, token: string) returns (found: bool, ghost at: int)
      requires cache.Valid()
      modifies cache
      ensures cache.Valid() && old(cache.clock) <= at <= cache.clock
      ensures found <==> HasSession(old(cache.store), user, token, at)
      ensures SameFrom(cache.store, old(cache.store), cache.clock)
    {
      var cached;
      cached, at := cache.Get(SessionKey(user, token));
      found := cached.Some?;
    }

    method ExistsByUser(user: int) returns (found: bool)
      requires cache.Valid()
      modifies cache
      ensures cache.Valid() && cache.clock >= old(cache.clock)
      ensures found <==> exists token :: HasSession(old(cache.store), user, token, cache.clock)
      ensures SameFrom(cache.store, old(cache.store), cache.clock)
    {
      found := cache.ExistsByPrefix(SessionPrefix(user));
      ghost var live := Live(old(cache.store), cache.clock);
      if found {
        ghost var key :| key in live && HasPrefix(key, SessionPrefix(user));
        assert key == SessionKey(user, key[|SessionPrefix(user)|..]);
        assert HasSession(old(cache.store), user, key[|SessionPrefix(user)|..], cache.clock);
      } else {
        forall token ensures !HasSession(old(cache.store), user, token, cache.clock) {
          assert HasPrefix(SessionKey(user, token), SessionPrefix(user));
        }
      }
    }
  }
}
