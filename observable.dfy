/**
 * The stock observable of the observer-pattern example: a list of
 * subscribers and a stock count whose change from zero alerts them all.
 * An observer's `update` only sends a message, so each call is recorded as
 * the observer's entry in the `notified` trace.
 */
module StockObservable {
  import opened Sequences

  /** `s` without its first occurrence of `o`. */
  function RemoveFirst<O(==)>(s: seq<O>, o: O): (r: seq<O>)
    ensures |r| == if o in s then |s| - 1 else |s|
  {
    if s == [] then []
    else if s[0] == o then s[1..]
    else [s[0]] + RemoveFirst(s[1..], o)
  }

  /** Removing an absent observer changes nothing. */
  lemma {:induction false} RemoveAbsent<O>(s: seq<O>, o: O)
    requires o !in s
    ensures RemoveFirst(s, o) == s
  {
    if s != [] {
      RemoveAbsent(s[1..], o);
    }
  }

  /** A present observer is cut out at its first position; the rest keep their order. */
  lemma {:induction false} RemoveAtFirstIndex<O>(s: seq<O>, o: O)
    requires o in s
    ensures RemoveFirst(s, o) == s[..FirstIndex(s, o)] + s[FirstIndex(s, o) + 1..]
  {
    if s[0] != o {
      assert o in s[1..] by {
        assert s == [s[0]] + s[1..];
      }
      RemoveAtFirstIndex(s[1..], o);
      var i := FirstIndex(s[1..], o);
      assert s[..i + 1] == [s[0]] + s[1..][..i];
      assert s[i + 2..] == s[1..][i + 1..];
    }
  }

  /** Removal takes exactly one copy of the observer out of the multiset, if it had one. */
  lemma {:induction false} RemoveMultiset<O>(s: seq<O>, o: O)
    ensures multiset(RemoveFirst(s, o)) == multiset(s) - multiset{o}
  {
    if s != [] {
      assert s == [s[0]] + s[1..];
      if s[0] != o {
        RemoveMultiset(s[1..], o);
      }
    }
  }

  /** Removing an observer that was added last, and not before, undoes the add. */
  lemma RemoveUndoesAdd<O>(s: seq<O>, o: O)
    requires o !in s
    ensures RemoveFirst(s + [o], o) == s
  {
    assert o in s + [o];
    RemoveAtFirstIndex(s + [o], o);
    assert (s + [o])[..|s|] == s;
  }

  class IPhoneObservable<O(==)> {
    var observers: seq<O>
    var stockCount: int
    /** Every `update` call so far, as the observer it was sent to. */
    var notified: seq<O>

    constructor ()
      ensures observers == [] && stockCount == 0 && notified == []
    {
      observers := [];
      stockCount := 0;
      notified := [];
    }

    method Add(observer: O)
      modifies this`observers
      ensures observers == old(observers) + [observer]
    {
      observers := observers + [observer];
    }

    method Remove(observer: O)
      modifies this`observers
      ensures observers == RemoveFirst(old(observers), observer)
    {
      observers := RemoveFirst(observers, observer);
    }

    /** Calls `update` once on each observer, in list order. */
    method NotifySubscribers()
      modifies this`notified
      ensures notified == old(notified) + observers
    {
      for i := 0 to |observers|
        invariant notified == old(notified) + observers[..i]
      {
        notified := notified + [observers[i]];
      }
    }

    /** Alerts every observer exactly when the stock was zero before, then stores the new count. */
    method SetStockCount(newStockCount: int)
      modifies this`stockCount, this`notified
      ensures stockCount == newStockCount
      ensures notified == old(notified) + (if old(stockCount) == 0 then observers else [])
    {
      if stockCount == 0 {
        NotifySubscribers();
      }
      stockCount := newStockCount;
    }

    function GetStockCount(): (count: int)
      reads this
      ensures count == stockCount
    {
      stockCount
    }
  }

  /**
   * The store example: three subscribers, then stock counts 10, 0 and 100.
   * Only the first and the third update start from zero, so every
   * subscriber hears twice, in subscription order both times.
   */
  method StoreAlerts() returns (alerts: seq<string>, finalCount: int)
    ensures alerts == ["user1@gmail.com", "user2@gmail.com", "User 3",
                       "user1@gmail.com", "user2@gmail.com", "User 3"]
    ensures finalCount == 100
  {
    var store := new IPhoneObservable<string>();
    store.Add("user1@gmail.com");
    store.Add("user2@gmail.com");
    store.Add("User 3");
    store.SetStockCount(10);
    store.SetStockCount(0);
    store.SetStockCount(100);
    alerts := store.notified;
    finalCount := store.GetStockCount();
  }
}
