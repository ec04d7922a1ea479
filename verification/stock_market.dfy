/** The stock ticker of the Observer-pattern exercise.

    A `Stock` keeps its name, its current price and the list of subscribed observers;
    a price change notifies every list entry, in list order. Observers and prices are
    type parameters: the model never looks inside either, so an observer value stands
    for the observer object and a price for whatever the ticker stores. Every call to
    an observer's `update` becomes one `Notification` in the returned output. */
module StockMarket {

  datatype Stock<O, P> = Stock(name: string, price: P, observers: seq<O>)

  /** One call `observer.update(stockName, price)`. */
  datatype Notification<O, P> = Notification(observer: O, stockName: string, price: P)

  /** A stock as constructed: the given name and price, nobody subscribed. */
  function NewStock<O, P>(name: string, price: P): (s: Stock<O, P>)
    ensures s.name == name && s.price == price
    ensures |s.observers| == 0
  {
    Stock(name, price, [])
  }

  /** `subscribe` adds `o` at the end of the list, also when it is already there, and
      changes nothing else. */
  function Subscribe<O, P>(s: Stock<O, P>, o: O): (r: Stock<O, P>)
    ensures r.name == s.name && r.price == s.price
    ensures |r.observers| == |s.observers| + 1 && r.observers[|s.observers|] == o
    ensures r.observers[..|s.observers|] == s.observers
  {
    s.(observers := s.observers + [o])
  }

  /** `xs` without its first occurrence of `x` (`List.remove(Object)`); `xs` itself when
      `x` does not occur. */
  function RemoveFirst<T(==)>(xs: seq<T>, x: T): (r: seq<T>)
    ensures x !in xs ==> r == xs
    ensures x in xs ==> |r| == |xs| - 1
    decreases |xs|
  {
    if |xs| == 0 then []
    else
      assert xs == [xs[0]] + xs[1..];
      if xs[0] == x then xs[1..]
      else [xs[0]] + RemoveFirst(xs[1..], x)
  }

  /** `RemoveFirst` takes exactly one `x` out of the list when there is one, and nothing
      else. */
  lemma {:induction false} RemoveFirstRemovesOne<T>(xs: seq<T>, x: T)
    ensures multiset(RemoveFirst(xs, x)) == multiset(xs) - multiset{x}
    decreases |xs|
  {
    if |xs| > 0 {
      assert xs == [xs[0]] + xs[1..];
      if xs[0] != x {
        RemoveFirstRemovesOne(xs[1..], x);
      }
    }
  }

  /** `RemoveFirst` cuts the list at the first occurrence `i` of `x` and keeps both sides
      in their order. */
  lemma {:induction false} RemoveFirstCutsAtFirstOccurrence<T>(xs: seq<T>, x: T) returns (i: nat)
    requires x in xs
    ensures i < |xs| && xs[i] == x && x !in xs[..i]
    ensures RemoveFirst(xs, x) == xs[..i] + xs[i + 1..]
    decreases |xs|
  {
    if xs[0] == x {
      i := 0;
      assert xs[..0] == [] && xs[1..] == xs[0 + 1..];
      assert RemoveFirst(xs, x) == xs[1..];
    } else {
      var tail := xs[1..];
      assert xs == [xs[0]] + tail;
      assert x in tail;
      var j := RemoveFirstCutsAtFirstOccurrence(tail, x);
      i := j + 1;
      assert xs[..i] == [xs[0]] + tail[..j];
      assert x !in xs[..i];
      assert xs[i + 1..] == tail[j + 1..];
      assert RemoveFirst(xs, x) == [xs[0]] + RemoveFirst(tail, x);
      assert [xs[0]] + (tail[..j] + tail[j + 1..]) == ([xs[0]] + tail[..j]) + tail[j + 1..];
    }
  }

  /** `unsubscribe` removes the first entry equal to `o` and changes nothing else; an
      observer that is not subscribed leaves the stock as it was. */
  function Unsubscribe<O(==), P>(s: Stock<O, P>, o: O): (r: Stock<O, P>)
    ensures r.name == s.name && r.price == s.price
    ensures o !in s.observers ==> r == s
    ensures multiset(r.observers) == multiset(s.observers) - multiset{o}
  {
    RemoveFirstRemovesOne(s.observers, o);
    s.(observers := RemoveFirst(s.observers, o))
  }

  /** `notifyObservers`: one notification per entry of `observers`, in list order, each
      carrying the stock's name and price. */
  function Notify<O, P>(observers: seq<O>, name: string, price: P): (ns: seq<Notification<O, P>>)
    ensures |ns| == |observers|
    ensures forall i :: 0 <= i < |ns| ==> ns[i] == Notification(observers[i], name, price)
    decreases |observers|
  {
    if |observers| == 0 then []
    else [Notification(observers[0], name, price)] + Notify(observers[1..], name, price)
  }

  /** `setPrice` stores the new price and then notifies every subscriber of it. */
  function SetPrice<O, P>(s: Stock<O, P>, newPrice: P): (r: (Stock<O, P>, seq<Notification<O, P>>))
    ensures r.0 == s.(price := newPrice)
    ensures |r.1| == |s.observers|
    ensures forall i :: 0 <= i < |r.1| ==>
      r.1[i] == Notification(s.observers[i], s.name, newPrice)
  {
    var s' := s.(price := newPrice);
    (s', Notify(s'.observers, s'.name, s'.price))
  }

  /** The observers notified, in the order they were notified. */
  function Recipients<O, P>(ns: seq<Notification<O, P>>): (os: seq<O>)
    ensures |os| == |ns|
    ensures forall i :: 0 <= i < |os| ==> os[i] == ns[i].observer
  {
    seq(|ns|, i requires 0 <= i < |ns| => ns[i].observer)
  }

  /** A price change notifies exactly the subscription list, in its order: an observer
      subscribed `k` times is notified `k` times, and an empty list yields no
      notification at all. */
  lemma SetPriceNotifiesTheList<O, P>(s: Stock<O, P>, newPrice: P, o: O)
    ensures Recipients(SetPrice(s, newPrice).1) == s.observers
    ensures multiset(Recipients(SetPrice(s, newPrice).1))[o] == multiset(s.observers)[o]
    ensures |s.observers| == 0 ==> SetPrice(s, newPrice).1 == []
  {
    var rs := Recipients(SetPrice(s, newPrice).1);
    assert rs == s.observers;
  }

  /** Subscribing twice means two notifications per price change, one for each entry. */
  lemma SubscribedTwiceNotifiedTwice<O, P>(s: Stock<O, P>, o: O, newPrice: P)
    requires o !in s.observers
    ensures var ns := SetPrice(Subscribe(Subscribe(s, o), o), newPrice).1;
            multiset(Recipients(ns))[o] == 2
  {
    var t := Subscribe(Subscribe(s, o), o);
    assert t.observers == s.observers + [o, o];
    SetPriceNotifiesTheList(t, newPrice, o);
    assert multiset(t.observers) == multiset(s.observers) + multiset{o, o};
  }

  /** Subscribing an observer that was not subscribed and unsubscribing it again gives
      the stock back; when it was already subscribed the earlier entry goes, so the list
      keeps the same entries, possibly reordered. */
  lemma SubscribeThenUnsubscribe<O, P>(s: Stock<O, P>, o: O)
    ensures o !in s.observers ==> Unsubscribe(Subscribe(s, o), o) == s
    ensures multiset(Unsubscribe(Subscribe(s, o), o).observers) == multiset(s.observers)
  {
    var t := Subscribe(s, o);
    if o !in s.observers {
      RemoveFirstOfAbsentThenAppended(s.observers, o);
    }
  }

  /** Removing `x` from `xs + [x]` when `x` does not occur in `xs` removes the appended one. */
  lemma {:induction false} RemoveFirstOfAbsentThenAppended<T>(xs: seq<T>, x: T)
    requires x !in xs
    ensures RemoveFirst(xs + [x], x) == xs
    decreases |xs|
  {
    if |xs| == 0 {
      assert xs + [x] == [x];
    } else {
      assert (xs + [x])[1..] == xs[1..] + [x];
      RemoveFirstOfAbsentThenAppended(xs[1..], x);
      assert xs == [xs[0]] + xs[1..];
    }
  }

  /** The operations of the `Subject` interface, as a client issues them. */
  datatype Operation<O, P> = DoSubscribe(o: O) | DoUnsubscribe(o: O) | DoSetPrice(p: P)

  /** Applies `ops` in order; returns the final stock and every notification sent. */
  function Apply<O(==), P>(s: Stock<O, P>, ops: seq<Operation<O, P>>): (r: (Stock<O, P>, seq<Notification<O, P>>))
    decreases |ops|
  {
    if |ops| == 0 then (s, [])
    else
      var (s', ns) := match ops[0]
        case DoSubscribe(o) => (Subscribe(s, o), [])
        case DoUnsubscribe(o) => (Unsubscribe(s, o), [])
        case DoSetPrice(p) => SetPrice(s, p);
      var rest := Apply(s', ops[1..]);
      (rest.0, ns + rest.1)
  }

  /** No operation writes the name: after any sequence of operations the stock keeps the
      name it was constructed with, and every notification carries that name. */
  lemma {:induction false} NameNeverChanges<O, P>(s: Stock<O, P>, ops: seq<Operation<O, P>>)
    ensures Apply(s, ops).0.name == s.name
    ensures forall k :: 0 <= k < |Apply(s, ops).1| ==> Apply(s, ops).1[k].stockName == s.name
    decreases |ops|
  {
    if |ops| > 0 {
      var (s', ns) := match ops[0]
        case DoSubscribe(o) => (Subscribe(s, o), [])
        case DoUnsubscribe(o) => (Unsubscribe(s, o), [])
        case DoSetPrice(p) => SetPrice(s, p);
      NameNeverChanges(s', ops[1..]);
      var rest := Apply(s', ops[1..]);
      assert Apply(s, ops).1 == ns + rest.1;
      forall k | 0 <= k < |ns + rest.1|
        ensures (ns + rest.1)[k].stockName == s.name
      {
        if k >= |ns| {
          assert (ns + rest.1)[k] == rest.1[k - |ns|];
        }
      }
    }
  }

  /** The observers of the exercise's `main`. */
  datatype Observer = MobileApp(appName: string) | EmailAlert(email: string)

  /** The demonstration in `main`: both subscribers hear of 155.0; after the e-mail
      alert unsubscribes, only the Robinhood app hears of 160.0. */
  lemma Demo()
    ensures
      var app, mail := MobileApp("Robinhood"), EmailAlert("user@example.com");
      var s0 := NewStock<Observer, real>("Apple", 150.0);
      var run := Apply(s0, [DoSubscribe(app), DoSubscribe(mail), DoSetPrice(155.0),
                            DoUnsubscribe(mail), DoSetPrice(160.0)]);
      && run.1 == [Notification(app, "Apple", 155.0), Notification(mail, "Apple", 155.0),
                   Notification(app, "Apple", 160.0)]
      && run.0 == Stock("Apple", 160.0, [app])
  {
    var app, mail := MobileApp("Robinhood"), EmailAlert("user@example.com");
    var s0 := NewStock<Observer, real>("Apple", 150.0);
    var ops := [DoSubscribe(app), DoSubscribe(mail), DoSetPrice(155.0), DoUnsubscribe(mail), DoSetPrice(160.0)];
    var s1 := Stock("Apple", 150.0, [app]);
    var s2 := Stock("Apple", 150.0, [app, mail]);
    var s3 := Stock("Apple", 155.0, [app, mail]);
    var s4 := Stock("Apple", 155.0, [app]);
    var s5 := Stock("Apple", 160.0, [app]);
    var n3 := [Notification(app, "Apple", 155.0), Notification(mail, "Apple", 155.0)];
    var n5 := [Notification(app, "Apple", 160.0)];
    assert [app, mail][1..] == [mail];
    var r5 := SetPrice(s4, 160.0);
    assert r5.0 == s5;
    assert |r5.1| == 1 && r5.1[0] == n5[0];
    assert r5.1 == n5;
    assert r5 == (s5, n5);
    assert ops[4..][1..] == [];
    assert Apply(s4, ops[4..]) == (s5, n5);
    assert ops[3..][1..] == ops[4..];
    assert ops[3..][0] == DoUnsubscribe(mail);
    assert RemoveFirst([app, mail], mail) == [app] + RemoveFirst([mail], mail);
    assert Unsubscribe(s3, mail) == s4;
    assert Apply(s3, ops[3..]) == (s5, [] + n5);
    assert [] + n5 == n5;
    var r3 := SetPrice(s2, 155.0);
    assert r3.0 == s3;
    assert |r3.1| == 2 && r3.1[0] == n3[0] && r3.1[1] == n3[1];
    assert r3.1 == n3;
    assert r3 == (s3, n3);
    assert ops[2..][1..] == ops[3..];
    assert Apply(s2, ops[2..]) == (s5, n3 + n5);
    assert ops[1..][1..] == ops[2..];
    assert ops[1..][0] == DoSubscribe(mail);
    assert Subscribe(s1, mail) == s2;
    assert Apply(s1, ops[1..]) == (s5, [] + (n3 + n5));
    assert [] + (n3 + n5) == n3 + n5;
    assert Subscribe(s0, app) == s1;
    assert Apply(s0, ops) == (s5, [] + (n3 + n5));
    assert Apply(s0, ops) == (s5, n3 + n5);
  }
}
