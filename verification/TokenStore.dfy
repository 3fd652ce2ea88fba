/** internal/adapter/security/token_whitelist.go and token_blacklist.go: keys
    with a time to live in Redis. */
module TokenStore {
  /** A user and one of the user's session ids. */
  datatype Session = Session(uid: nat, sid: nat)

  /** Each stored session with its deadline. */
  type Store = map<Session, int>

  predicate Holds(store: Store, s: Session, now: int) {
    s in store && now < store[s]
  }

  class TokenStore {
    const ttl: nat
    var entries: Store

    constructor (ttl: nat)
      ensures this.ttl == ttl && entries == map[]
    {
      this.ttl, entries := ttl, map[];
    }

    method Add(s: Session, now: int)
      modifies this
      ensures entries == old(entries)[s := now + ttl]
    {
      entries := entries[s := now + ttl];
    }

    method Remove(s: Session)
      modifies this
      ensures entries == old(entries) - {s}
    {
      entries := entries - {s};
    }

    /** EXISTS: the whitelist allows what it holds, the blacklist what it does
        not hold. */
    method Exists(s: Session, now: int) returns (found: bool)
      ensures found <==> Holds(entries, s, now)
    {
      found := s in entries && now < entries[s];
    }
  }

  /** The stored key of a session. */
  function BuildKey(prefix: string, uid: string, tid: string): string {
    prefix + uid + ":" + tid
  }

  /** Sessions do not share keys: user ids are UUIDs and hold no colon. */
  lemma BuildKeyInjective(prefix: string, uid1: string, tid1: string, uid2: string, tid2: string)
    requires ':' !in uid1 && ':' !in uid2
    requires BuildKey(prefix, uid1, tid1) == BuildKey(prefix, uid2, tid2)
    ensures uid1 == uid2 && tid1 == tid2
  {
    var k1, k2 := BuildKey(prefix, uid1, tid1), BuildKey(prefix, uid2, tid2);
    var p, n1, n2 := |prefix|, |uid1|, |uid2|;
    assert k1[p + n1] == ':' && k2[p + n2] == ':';
    assert forall i :: 0 <= i < n1 ==> k1[p + i] == uid1[i];
    assert forall i :: 0 <= i < n2 ==> k2[p + i] == uid2[i];
    assert k1[p..][..n1] == uid1 && k2[p..][..n2] == uid2;
    assert k1[p + n1 + 1..] == tid1 && k2[p + n2 + 1..] == tid2;
  }
}
