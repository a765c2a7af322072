/**
 * Keys in some order, and the streams of values they stand for: ranging over a map
 * gives the values in any order, and a key that comes twice gives one too many.
 */
module KeyStreams {
  import Ranks
  import opened Histograms
  import opened HostSamples
  import opened HostStore

  // ------------------------------------------------------------------ keys in order

  /** The keys of one cluster or datastore. */
  ghost function On(keys: set<Key>, name: string): set<Key> {
    set k | k in keys && k.name == name
  }

  /** The part of an order that lies in a set. */
  ghost function Among(order: seq<Key>, keys: set<Key>): seq<Key> {
    if order == [] then []
    else
      var k := order[|order| - 1];
      Among(order[..|order| - 1], keys) + if k in keys then [k] else []
  }

  lemma EachInit(order: seq<Key>, keys: set<Key>)
    requires Each(order, keys) && order != []
    ensures order[|order| - 1] in keys && Each(order[..|order| - 1], keys - {order[|order| - 1]})
  {
    EachButOne(order, keys, |order| - 1);
    assert order[..|order| - 1] + order[|order|..] == order[..|order| - 1];
  }

  lemma EachConcat(a: seq<Key>, keys: set<Key>, b: seq<Key>, more: set<Key>)
    requires Each(a, keys) && Each(b, more) && keys !! more
    ensures Each(a + b, keys + more)
  {
    assert forall i :: 0 <= i < |a| ==> a[i] in keys;
    assert forall i :: 0 <= i < |b| ==> b[i] in more;
  }

  lemma EachOne(k: Key)
    ensures Each([k], {k}) && Each([], {})
  {
  }

  lemma {:induction false} AmongEach(order: seq<Key>, all: set<Key>, keys: set<Key>)
    requires Each(order, all)
    ensures Each(Among(order, keys), all * keys)
  {
    hide Each;
    if order == [] {
      NoKeys(all);
      assert all * keys == {};
    } else {
      var init, k := order[..|order| - 1], order[|order| - 1];
      EachInit(order, all);
      AmongEach(init, all - {k}, keys);
      EachOne(k);
      if k in keys {
        EachConcat(Among(init, keys), (all - {k}) * keys, [k], {k});
        assert (all - {k}) * keys + {k} == all * keys;
      } else {
        assert Among(init, keys) + [] == Among(init, keys);
        assert (all - {k}) * keys == all * keys;
      }
    }
  }

  lemma NoKeys(keys: set<Key>)
    requires Each([], keys)
    ensures keys == {} && Each([], {})
  {
    var none: seq<Key> := [];
    assert forall k :: k in keys ==> k in none;
  }

  lemma {:induction false} EachCount(order: seq<Key>, keys: set<Key>)
    requires Each(order, keys)
    ensures |order| == |keys|
  {
    if order == [] {
      NoKeys(keys);
    } else {
      EachInit(order, keys);
      EachCount(order[..|order| - 1], keys - {order[|order| - 1]});
    }
  }

  // --------------------------------------------------------------- streams of values

  /** A value for every key of an order. */
  ghost function Stream(value: Key -> Ranks.Sample, order: seq<Key>): seq<Ranks.Sample> {
    seq(|order|, i requires 0 <= i < |order| => value(order[i]))
  }

  lemma StreamConcat(value: Key -> Ranks.Sample, a: seq<Key>, b: seq<Key>)
    ensures Stream(value, a + b) == Stream(value, a) + Stream(value, b)
  {
  }

  lemma StreamSame(f: Key -> Ranks.Sample, g: Key -> Ranks.Sample, order: seq<Key>)
    requires forall k :: k in order ==> f(k) == g(k)
    ensures Stream(f, order) == Stream(g, order)
  {
  }

  /** The order of the keys changes only the order of the values. */
  lemma {:induction false} StreamAnyOrder(value: Key -> Ranks.Sample, a: seq<Key>, b: seq<Key>, keys: set<Key>)
    requires Each(a, keys) && Each(b, keys)
    ensures multiset(Stream(value, a)) == multiset(Stream(value, b))
    decreases |a|
  {
    EachCount(a, keys);
    EachCount(b, keys);
    hide Each, Stream;
    if a == [] {
      assert b == [];
    } else {
      var init, k := a[..|a| - 1], a[|a| - 1];
      EachInit(a, keys);
      var i := IndexIn(b, keys, k);
      EachButOne(b, keys, i);
      StreamAnyOrder(value, init, b[..i] + b[i + 1..], keys - {k});
      Split(value, a, |a| - 1);
      Split(value, b, i);
      assert a[..|a| - 1] + a[|a|..] == init;
    }
  }

  lemma IndexIn(order: seq<Key>, keys: set<Key>, k: Key) returns (i: nat)
    requires Each(order, keys) && k in keys
    ensures i < |order| && order[i] == k
  {
    assert k in order;
    i :| 0 <= i < |order| && order[i] == k;
  }

  lemma Split(value: Key -> Ranks.Sample, order: seq<Key>, i: nat)
    requires i < |order|
    ensures multiset(Stream(value, order))
      == multiset(Stream(value, order[..i] + order[i + 1..])) + multiset{value(order[i])}
  {
    var s := Stream(value, order);
    assert s == s[..i] + ([s[i]] + s[i + 1..]);
    assert Stream(value, order[..i] + order[i + 1..]) == s[..i] + s[i + 1..];
  }


  lemma {:induction false} TotalConcat(a: seq<Ranks.Sample>, b: seq<Ranks.Sample>)
    ensures Ranks.Total(a + b) == Ranks.Total(a) + Ranks.Total(b)
  {
    if b == [] {
      assert a + b == a;
    } else {
      assert (a + b)[..|a + b| - 1] == a + b[..|b| - 1];
      TotalConcat(a, b[..|b| - 1]);
    }
  }

  // --------------------------------------------------------- what a run records

  /**
   * Against the values of an order, one per timestamp: the recorded ones are those if
   * each came in one call, and weigh more otherwise.
   */
  ghost predicate Recorded(recorded: seq<Ranks.Sample>, sums: seq<Ranks.Sample>, once: bool) {
    && Ranks.NonNegative(recorded)
    && if once then multiset(recorded) == multiset(sums) else Ranks.Total(recorded) > Ranks.Total(sums)
  }

  /** The same, or at least as heavy. */
  lemma RecordedWeight(recorded: seq<Ranks.Sample>, sums: seq<Ranks.Sample>, once: bool)
    requires Recorded(recorded, sums, once)
    ensures Ranks.Total(recorded) >= Ranks.Total(sums)
  {
    if once {
      TotalAnyOrder(recorded, sums);
    }
  }

  lemma {:induction false} TotalAnyOrder(s: seq<Ranks.Sample>, t: seq<Ranks.Sample>)
    requires multiset(s) == multiset(t)
    ensures Ranks.Total(s) == Ranks.Total(t)
  {
    if s == [] {
      assert |multiset(t)| == |t|;
    } else {
      var last := s[|s| - 1];
      assert last in multiset(t);
      var i :| 0 <= i < |t| && t[i] == last;
      WithoutOne(s, |s| - 1);
      WithoutOne(t, i);
      assert s[..|s| - 1] + s[|s|..] == s[..|s| - 1];
      TotalWithoutOne(t, i);
      hide Ranks.Total;
      TotalAnyOrder(s[..|s| - 1], t[..i] + t[i + 1..]);
      TotalWithoutOne(s, |s| - 1);
    }
  }

  lemma {:induction false} TotalWithoutOne(s: seq<Ranks.Sample>, i: nat)
    requires i < |s|
    ensures Ranks.Total(s) == Ranks.Total(s[..i] + s[i + 1..]) + s[i].n
  {
    var init, rest := s[..|s| - 1], s[..i] + s[i + 1..];
    if i == |init| {
      assert rest == init;
    } else {
      TotalWithoutOne(init, i);
      assert rest[..|rest| - 1] == init[..i] + init[i + 1..];
    }
  }

  lemma {:induction false} SameWeights(f: Key -> Ranks.Sample, g: Key -> Ranks.Sample, order: seq<Key>)
    requires forall k :: k in order ==> f(k).n == g(k).n
    ensures Ranks.Total(Stream(f, order)) == Ranks.Total(Stream(g, order))
  {
    if order != [] {
      var init := order[..|order| - 1];
      SameWeights(f, g, init);
      assert Stream(f, order)[..|init|] == Stream(f, init);
      assert Stream(g, order)[..|init|] == Stream(g, init);
      assert order[|init|] in order;
    }
  }

  /** The values of known keys keep their weight, and change only where a call brings more; those of new keys are its sums. */
  ghost predicate Grows(f0: Key -> Ranks.Sample, f: Key -> Ranks.Sample, h: Key -> Ranks.Sample, was: set<Key>, here: set<Key>) {
    && (forall k :: k in was ==> f(k).n == f0(k).n && (k !in here ==> f(k) == f0(k)))
    && (forall k :: k in here && k !in was ==> f(k) == h(k))
  }

  lemma GrowsIs(f0: Key -> Ranks.Sample, f: Key -> Ranks.Sample, h: Key -> Ranks.Sample, was: set<Key>, here: set<Key>)
    requires forall k :: k in was ==> f(k).n == f0(k).n && (k !in here ==> f(k) == f0(k))
    requires forall k :: k in here && k !in was ==> f(k) == h(k)
    ensures Grows(f0, f, h, was, here)
  {
  }

  lemma NewValues(f0: Key -> Ranks.Sample, f: Key -> Ranks.Sample, h: Key -> Ranks.Sample, was: set<Key>, here: set<Key>,
                  done: seq<Key>, order: seq<Key>, added: seq<Key>)
    requires Grows(f0, f, h, was, here) && Each(done, was) && Each(order, here) && Each(added, here - was)
    requires forall k :: h(k).n >= 1
    ensures Ranks.Total(Stream(f, done)) == Ranks.Total(Stream(f0, done))
    ensures Stream(f, added) == Stream(h, added)
    ensures was !! here ==> Stream(f, done) == Stream(f0, done) && multiset(Stream(h, added)) == multiset(Stream(h, order))
    ensures !(was !! here) ==> Ranks.Total(Stream(h, added)) < Ranks.Total(Stream(h, order))
  {
    assert forall k :: k in done ==> k in was;
    assert forall k :: k in added ==> k in here && k !in was;
    hide Each, Stream, Ranks.Total;
    SameWeights(f, f0, done);
    StreamSame(f, h, added);
    if was !! here {
      assert here - was == here;
      StreamAnyOrder(h, added, order, here);
      StreamSame(f, f0, done);
    } else {
      FewerWeighLess(h, added, order, here - was, here);
    }
  }

  lemma FewerWeighLess(h: Key -> Ranks.Sample, a: seq<Key>, b: seq<Key>, some: set<Key>, all: set<Key>)
    requires Each(a, some) && Each(b, all) && some < all && forall k :: h(k).n >= 1
    ensures Ranks.Total(Stream(h, a)) < Ranks.Total(Stream(h, b))
  {
    var rest := Among(b, all - some);
    assert all * (all - some) == all - some && some + (all - some) == all;
    AmongEach(b, all, all - some);
    EachConcat(a, some, rest, all - some);
    EachCount(rest, all - some);
    StreamAnyOrder(h, a + rest, b, all);
    hide Each, Among, Ranks.Total;
    TotalAnyOrder(Stream(h, a + rest), Stream(h, b));
    StreamConcat(h, a, rest);
    TotalConcat(Stream(h, a), Stream(h, rest));
    WeighsSome(h, rest);
    assert |all - some| > 0 by {
      assert all - some != {};
    }
  }

  lemma {:induction false} WeighsSome(value: Key -> Ranks.Sample, order: seq<Key>)
    requires forall k :: value(k).n >= 1
    ensures Ranks.Total(Stream(value, order)) >= |order|
  {
    if order != [] {
      var init := order[..|order| - 1];
      WeighsSome(value, init);
      var s := Stream(value, order);
      assert s[..|s| - 1] == Stream(value, init);
      assert value(order[|order| - 1]).n >= 1;
    }
  }

  lemma RecordedGrows(recorded: seq<Ranks.Sample>, sums: seq<Ranks.Sample>, once: bool, sums': seq<Ranks.Sample>,
                      here: seq<Ranks.Sample>, added: seq<Ranks.Sample>, apart: bool)
    requires Recorded(recorded, sums, once) && Ranks.NonNegative(here)
    requires Ranks.Total(sums') == Ranks.Total(sums)
    requires if apart then sums' == sums && multiset(added) == multiset(here) else Ranks.Total(added) < Ranks.Total(here)
    ensures Recorded(recorded + here, sums' + added, once && apart)
  {
    RecordedWeight(recorded, sums, once);
    if apart {
      TotalAnyOrder(added, here);
    }
    TotalConcat(recorded, here);
    TotalConcat(sums', added);
  }

  /** More keys: each is a new value, or, if it was there already, a value too many. */
  lemma MoreRecorded(recorded: seq<Ranks.Sample>, f0: Key -> Ranks.Sample, f: Key -> Ranks.Sample, h: Key -> Ranks.Sample,
                     was: set<Key>, brought: set<Key>, done: seq<Key>, here: seq<Key>, once: bool) returns (order: seq<Key>)
    requires Each(done, was) && Each(here, brought) && Recorded(recorded, Stream(f0, done), once)
    requires Grows(f0, f, h, was, brought) && Ranks.NonNegative(Stream(h, here)) && forall k :: h(k).n >= 1
    ensures Each(order, was + (brought - was))
    ensures Recorded(recorded + Stream(h, here), Stream(f, order), once && was !! brought)
  {
    hide *;
    var added := Among(here, brought - was);
    AmongEach(here, brought, brought - was);
    assert brought * (brought - was) == brought - was;
    order := done + added;
    EachConcat(done, was, added, brought - was);
    NewValues(f0, f, h, was, brought, done, here, added);
    StreamConcat(f, done, added);
    RecordedGrows(recorded, Stream(f0, done), once, Stream(f, done), Stream(h, here), Stream(h, added), was !! brought);
  }
}
