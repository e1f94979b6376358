/** lib/eventmgr/ExpireMgr.h: the pending expiries, kept in two maps that mirror each
    other, so that both the earliest expiry and the expiry of an id are found at once. */
module Expiry {
  import opened Options
  import opened OrderedSets
  import opened Machine

  /** How long `epoll_wait` may sleep when nothing is pending. */
  const TIME_EXPIRE: nat := 2000 * 1000

  class ExpireMgr {
    var expireToId: map<nat, set<Id>>
    var idToExpire: map<Id, nat>

    /** The two maps say the same, and no expiry is kept without an id. */
    ghost predicate Valid()
      reads this
    {
      && (forall id :: id in idToExpire ==>
            idToExpire[id] in expireToId && id in expireToId[idToExpire[id]])
      && (forall e :: e in expireToId ==> expireToId[e] != {})
      && (forall e, id :: e in expireToId && id in expireToId[e] ==> id in idToExpire && idToExpire[id] == e)
    }

    constructor ()
      ensures Valid() && idToExpire == map[]
    {
      expireToId := map[];
      idToExpire := map[];
    }

    method Del(id: Id)
      requires Valid()
      modifies this
      ensures Valid() && idToExpire == old(idToExpire) - {id}
    {
      if id in idToExpire {
        var expire := idToExpire[id];
        var ids := expireToId[expire] - {id};
        expireToId := expireToId[expire := ids];
        if ids == {} {
          expireToId := expireToId - {expire};
        }
        idToExpire := idToExpire - {id};
      }
    }

    /** `Add` by itself does not look for an earlier registration: the maps still agree
        exactly when the id had none, or had this very expiry. */
    method Add(id: Id, expire: nat)
      requires Valid()
      modifies this
      ensures idToExpire == old(idToExpire)[id := expire]
      ensures Valid() <==> id !in old(idToExpire) || old(idToExpire)[id] == expire
    {
      var ids := if expire in expireToId then expireToId[expire] else {};
      expireToId := expireToId[expire := ids + {id}];
      idToExpire := idToExpire[id := expire];
      assert id in old(idToExpire) && old(idToExpire)[id] != expire ==>
          id in expireToId[old(idToExpire)[id]] && idToExpire[id] != old(idToExpire)[id];
    }

    method Set(now: nat, ms: nat, id: Id)
      requires Valid()
      modifies this
      ensures Valid() && idToExpire == old(idToExpire)[id := now + ms]
    {
      Del(id);
      Add(id, now + ms);
      assert idToExpire == old(idToExpire)[id := now + ms];
    }

    /** Either an id whose expiry has passed, the smallest of the earliest ones, with ms 0;
        or 0 and the time until the earliest expiry, never past it. */
    method NextWaitTime(now: nat) returns (ms: nat, id: Id)
      requires Valid()
      ensures ToFire(idToExpire, now).Some? ==> ms == 0 && Some(id) == ToFire(idToExpire, now)
      ensures id != 0 ==>
                && id in idToExpire && idToExpire[id] <= now
                && forall j :: j in idToExpire ==>
                     idToExpire[id] < idToExpire[j] || (idToExpire[id] == idToExpire[j] && id <= j)
      ensures ToFire(idToExpire, now).None? ==> ms > 0 && id == 0
      ensures ToFire(idToExpire, now).None? ==> forall j :: j in idToExpire ==> now + ms <= idToExpire[j]
      ensures idToExpire == map[] ==> ms == 2000 * 1000
      ensures idToExpire != map[] ==> exists j :: j in idToExpire && idToExpire[j] <= now + ms
    {
      if expireToId == map[] {
        assert idToExpire == map[];
        return TIME_EXPIRE, 0;
      }
      var first := Min(expireToId.Keys);
      ghost var j :| j in expireToId[first];
      assert j in idToExpire && idToExpire[j] == first;
      if first > now {
        return first - now, 0;
      }
      id := Min(expireToId[first]);
      assert FiresFirst(idToExpire, now, id);
      ms := 0;
    }
  }
}
