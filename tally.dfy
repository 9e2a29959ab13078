// The counting dictionaries `getLogStats` builds: a JavaScript object used
// as a counter (`counts[key] = (counts[key] || 0) + 1`), the entries it
// yields in insertion order, and the descending stable sort and top-ten cut
// applied to those entries.
module Counting {
  import opened Common

  /**
   * A counting object: the keys in the order they were first added, and the
   * count stored under each key.
   */
  datatype Counter<K> = Counter(keys: seq<K>, counts: map<K, nat>)

  /** Keys are distinct, exactly the keys of the map, and every stored count is positive. */
  predicate Valid<K>(c: Counter<K>)
  {
    && (forall i, j :: 0 <= i < j < |c.keys| ==> c.keys[i] != c.keys[j])
    && (forall i :: 0 <= i < |c.keys| ==> c.keys[i] in c.counts)
    && (forall k :: k in c.counts ==> k in c.keys && c.counts[k] >= 1)
  }

  /** `{}`. */
  function Empty<K>(): (c: Counter<K>)
    ensures Valid(c) && c.keys == []
  {
    Counter([], map[])
  }

  /** `counts[key] || 0`. */
  function Count<K>(c: Counter<K>, k: K): nat
  {
    if k in c.counts then c.counts[k] else 0
  }

  /**
   * `counts[key] = (counts[key] || 0) + 1`: the key's count goes up by one,
   * no other count changes, and a new key is added at the end of the order.
   */
  function Increment<K>(c: Counter<K>, k: K): (r: Counter<K>)
    requires Valid(c)
    ensures Valid(r)
    ensures Count(r, k) == Count(c, k) + 1
    ensures r.counts == c.counts[k := Count(c, k) + 1]
    ensures r.keys == if k in c.counts then c.keys else c.keys + [k]
  {
    if k in c.counts then Counter(c.keys, c.counts[k := c.counts[k] + 1])
    else Counter(c.keys + [k], c.counts[k := 1])
  }

  /** The counter after incrementing every element of `s`, in order, starting from `{}`. */
  function Tally<K>(s: seq<K>): (r: Counter<K>)
    ensures Valid(r) && |r.keys| <= |s|
  {
    if s == [] then Empty() else Increment(Tally(s[..|s| - 1]), s[|s| - 1])
  }

  /** Each key's count is its number of occurrences; the keys are exactly the elements. */
  lemma {:induction false} TallyCounts<K>(s: seq<K>)
    ensures forall k :: Count(Tally(s), k) == multiset(s)[k]
    ensures forall k :: k in Tally(s).keys <==> k in s
  {
    if s != [] {
      var init := s[..|s| - 1];
      TallyCounts(init);
      assert s == init + [s[|s| - 1]];
      assert multiset(s) == multiset(init) + multiset{s[|s| - 1]};
      forall k ensures k in Tally(s).keys <==> k in s {
        assert k in s <==> k in init || k == s[|s| - 1];
      }
    }
  }

  /** The tally of a sequence extended by one element is the old tally incremented. */
  lemma TallySnoc<K>(s: seq<K>, x: K)
    ensures Tally(s + [x]) == Increment(Tally(s), x)
  {
    assert (s + [x])[..|s + [x]| - 1] == s;
  }

  /** Tallying one more element of `s` increments the tally of the elements before it. */
  lemma TallyPrefix<K>(s: seq<K>, i: nat)
    requires i < |s|
    ensures Tally(s[..i + 1]) == Increment(Tally(s[..i]), s[i])
  {
    assert s[..i + 1][..i] == s[..i];
  }

  /** The sum of the counts stored under `keys`. */
  function SumOver<K>(keys: seq<K>, counts: map<K, nat>): nat
  {
    if keys == [] then 0
    else
      var k := keys[|keys| - 1];
      SumOver(keys[..|keys| - 1], counts) + (if k in counts then counts[k] else 0)
  }

  /** The sum of all counts: `Object.values(counts)` added up. */
  function Total<K>(c: Counter<K>): nat
  {
    SumOver(c.keys, c.counts)
  }

  /** Changing the count of a key outside `keys` does not change their sum. */
  lemma {:induction false} SumOverOther<K>(keys: seq<K>, counts: map<K, nat>, k: K, v: nat)
    requires k !in keys
    ensures SumOver(keys, counts[k := v]) == SumOver(keys, counts)
  {
    if keys != [] {
      SumOverOther(keys[..|keys| - 1], counts, k, v);
    }
  }

  /** Raising the count of one of the (distinct) keys by one raises their sum by one. */
  lemma {:induction false} SumOverBump<K>(keys: seq<K>, counts: map<K, nat>, k: K)
    requires k in keys && k in counts
    requires forall i, j :: 0 <= i < j < |keys| ==> keys[i] != keys[j]
    ensures SumOver(keys, counts[k := counts[k] + 1]) == SumOver(keys, counts) + 1
  {
    var init := keys[..|keys| - 1];
    var last := keys[|keys| - 1];
    if last == k {
      assert k !in init by {
        forall i | 0 <= i < |init| ensures init[i] != k {
          assert init[i] == keys[i];
        }
      }
      SumOverOther(init, counts, k, counts[k] + 1);
    } else {
      assert k in init by {
        var i :| 0 <= i < |keys| && keys[i] == k;
        assert i < |keys| - 1 && init[i] == k;
      }
      SumOverBump(init, counts, k);
    }
  }

  /** Every increment adds one to the total. */
  lemma IncrementTotal<K>(c: Counter<K>, k: K)
    requires Valid(c)
    ensures Total(Increment(c, k)) == Total(c) + 1
  {
    if k in c.counts {
      SumOverBump(c.keys, c.counts, k);
    } else {
      assert k !in c.keys by {
        forall i | 0 <= i < |c.keys| ensures c.keys[i] != k {
          assert c.keys[i] in c.counts;
        }
      }
      NewKeyTotal(c.keys, c.counts, k);
    }
  }

  /** A new key entered last with count one adds one to the sum. */
  lemma NewKeyTotal<K>(keys: seq<K>, counts: map<K, nat>, k: K)
    requires k !in keys
    ensures SumOver(keys + [k], counts[k := 1]) == SumOver(keys, counts) + 1
  {
    var longer := keys + [k];
    assert longer[..|longer| - 1] == keys;
    SumOverOther(keys, counts, k, 1);
  }

  /** The counts of a tally add up to the length of the sequence. */
  lemma {:induction false} TallyTotal<K>(s: seq<K>)
    ensures Total(Tally(s)) == |s|
  {
    if s != [] {
      TallyTotal(s[..|s| - 1]);
      IncrementTotal(Tally(s[..|s| - 1]), s[|s| - 1]);
    }
  }

  /** One `[key, count]` pair of `Object.entries(counts)`. */
  datatype Entry<K> = Entry(key: K, count: nat)

  /** The entries of `c` for `keys`, in that order. */
  function EntriesOf<K>(c: Counter<K>, keys: seq<K>): (r: seq<Entry<K>>)
    ensures |r| == |keys|
    ensures forall i :: 0 <= i < |r| ==> r[i] == Entry(keys[i], Count(c, keys[i]))
  {
    if keys == [] then [] else [Entry(keys[0], Count(c, keys[0]))] + EntriesOf(c, keys[1..])
  }

  /** `Object.entries(counts)`, in key order. */
  function Entries<K>(c: Counter<K>): seq<Entry<K>>
  {
    EntriesOf(c, c.keys)
  }

  /** Counts never increase from left to right. */
  predicate Descending<K>(s: seq<Entry<K>>)
  {
    forall i, j :: 0 <= i < j < |s| ==> s[i].count >= s[j].count
  }

  /**
   * One insertion step of a stable sort under `(a, b) => b[1] - a[1]`: the
   * entry goes before the first entry whose count is not larger, so among
   * equal counts earlier entries stay first.
   */
  function Insert<K>(e: Entry<K>, s: seq<Entry<K>>): (r: seq<Entry<K>>)
    requires Descending(s)
    ensures Descending(r)
    ensures multiset(r) == multiset(s) + multiset{e}
  {
    if s == [] || s[0].count <= e.count then
      [e] + s
    else
      DescendingTail(s);
      var rest := Insert(e, s[1..]);
      InsertStep(s, e, rest);
      [s[0]] + rest
  }

  /** The tail of a descending sequence is descending. */
  lemma DescendingTail<K>(s: seq<Entry<K>>)
    requires s != [] && Descending(s)
    ensures Descending(s[1..])
  {
    forall i, j | 0 <= i < j < |s[1..]| ensures s[1..][i].count >= s[1..][j].count {
      assert s[1..][i] == s[i + 1] && s[1..][j] == s[j + 1];
    }
  }

  /** Putting the head back in front of the tail with `e` inserted keeps the order. */
  lemma InsertStep<K>(s: seq<Entry<K>>, e: Entry<K>, rest: seq<Entry<K>>)
    requires s != [] && Descending(s) && e.count < s[0].count
    requires Descending(rest) && multiset(rest) == multiset(s[1..]) + multiset{e}
    ensures Descending([s[0]] + rest)
    ensures multiset([s[0]] + rest) == multiset(s) + multiset{e}
  {
    assert s == [s[0]] + s[1..];
    var h, tail := s[0], s[1..];
    forall x | x in tail ensures x.count <= h.count {
      var i :| 0 <= i < |tail| && tail[i] == x;
      assert x == s[i + 1];
    }
    InsertHead(h, rest, e, tail);
  }

  lemma InsertHead<K>(h: Entry<K>, rest: seq<Entry<K>>, e: Entry<K>, tail: seq<Entry<K>>)
    requires Descending(rest) && multiset(rest) == multiset(tail) + multiset{e}
    requires e.count <= h.count
    requires forall x :: x in tail ==> x.count <= h.count
    ensures Descending([h] + rest)
  {
    forall x | x in rest ensures x.count <= h.count {
      assert x in multiset(rest);
      assert x in multiset(tail) || x == e;
    }
    var r := [h] + rest;
    forall i, j | 0 <= i < j < |r| ensures r[i].count >= r[j].count {
      assert r[j] == rest[j - 1];
      if i > 0 {
        assert r[i] == rest[i - 1];
      } else {
        assert rest[j - 1] in rest;
      }
    }
  }

  /** `entries.sort((a, b) => b[1] - a[1])`. */
  function SortByCount<K>(s: seq<Entry<K>>): (r: seq<Entry<K>>)
    ensures Descending(r)
    ensures multiset(r) == multiset(s)
  {
    if s == [] then []
    else
      var r := Insert(s[0], SortByCount(s[1..]));
      ConsMultiset(s);
      r
  }

  /** The entries of `s` whose count is `n`, in their order in `s`. */
  function WithCount<K>(s: seq<Entry<K>>, n: nat): seq<Entry<K>>
  {
    if s == [] then [] else (if s[0].count == n then [s[0]] else []) + WithCount(s[1..], n)
  }

  /**
   * An insertion puts the new entry in front of the entries with its count
   * and leaves the order among every count's entries alone.
   */
  lemma {:induction false} InsertKeepsTies<K>(e: Entry<K>, s: seq<Entry<K>>, n: nat)
    requires Descending(s)
    ensures WithCount(Insert(e, s), n) == (if e.count == n then [e] else []) + WithCount(s, n)
  {
    if s == [] || s[0].count <= e.count {
      assert ([e] + s)[1..] == s;
    } else {
      DescendingTail(s);
      InsertKeepsTies(e, s[1..], n);
      var rest := Insert(e, s[1..]);
      assert Insert(e, s) == [s[0]] + rest;
      assert ([s[0]] + rest)[1..] == rest;
    }
  }

  /**
   * The sort is stable: entries with equal counts keep the order they had
   * in `Object.entries`.
   */
  lemma {:induction false} SortByCountStable<K>(s: seq<Entry<K>>, n: nat)
    ensures WithCount(SortByCount(s), n) == WithCount(s, n)
  {
    if s != [] {
      SortByCountStable(s[1..], n);
      InsertKeepsTies(s[0], SortByCount(s[1..]), n);
    }
  }

  lemma ConsMultiset<T>(s: seq<T>)
    requires s != []
    ensures multiset(s) == multiset(s[1..]) + multiset{s[0]}
  {
    assert s == [s[0]] + s[1..];
  }

  /** `.slice(0, 10)` of the sorted entries of `c`: its ten largest counts. */
  function TopTen<K>(c: Counter<K>): seq<Entry<K>>
  {
    TakeFirst(SortByCount(Entries(c)), 10)
  }

  /** Two equal elements at different positions make an element occur at least twice. */
  lemma Twice<T>(s: seq<T>, i: nat, j: nat)
    requires i < j < |s| && s[i] == s[j]
    ensures multiset(s)[s[i]] >= 2
  {
    assert s == s[..j] + [s[j]] + s[j + 1..];
    assert s[i] in s[..j];
    assert multiset(s) == multiset(s[..j]) + multiset{s[j]} + multiset(s[j + 1..]);
  }

  /** An element of a sequence of distinct elements occurs at most once. */
  lemma {:induction false} AtMostOnce<T>(s: seq<T>, x: T)
    requires forall i, j :: 0 <= i < j < |s| ==> s[i] != s[j]
    ensures multiset(s)[x] <= 1
  {
    if s != [] {
      var init := s[..|s| - 1];
      assert s == init + [s[|s| - 1]];
      AtMostOnce(init, x);
      if x == s[|s| - 1] {
        assert x !in init by {
          forall i | 0 <= i < |init| ensures init[i] != x {
            assert init[i] == s[i];
          }
        }
      }
    }
  }

  /** A permutation has the same length, and each element of one is an element of the other. */
  lemma SameElements<T>(a: seq<T>, b: seq<T>)
    requires multiset(a) == multiset(b)
    ensures |a| == |b|
    ensures forall i :: 0 <= i < |a| ==> a[i] in b
    ensures forall i :: 0 <= i < |b| ==> b[i] in a
  {
    assert |multiset(a)| == |a| && |multiset(b)| == |b|;
    forall i | 0 <= i < |a| ensures a[i] in b {
      assert a[i] in multiset(a);
    }
    forall i | 0 <= i < |b| ensures b[i] in a {
      assert b[i] in multiset(b);
    }
  }

  /** The entries of a valid counter are distinct, and so are their keys. */
  lemma EntriesDistinct<K>(c: Counter<K>)
    requires Valid(c)
    ensures forall i, j :: 0 <= i < j < |Entries(c)| ==> Entries(c)[i] != Entries(c)[j]
  {
    var es := Entries(c);
    forall i, j | 0 <= i < j < |es| ensures es[i] != es[j] {
      assert es[i].key == c.keys[i] && es[j].key == c.keys[j];
    }
  }

  /** The top entries are entries of the counter, at most ten of them, in descending order. */
  lemma TopTenEntries<K>(c: Counter<K>)
    requires Valid(c)
    ensures var top := TopTen(c);
      && |top| == Min(10, |c.keys|)
      && Descending(top)
      && (forall i :: 0 <= i < |top| ==> top[i].key in c.keys && top[i].count == Count(c, top[i].key))
  {
    var es := Entries(c);
    var sorted := SortByCount(es);
    var top := TopTen(c);
    SameElements(sorted, es);
    assert top == sorted[..|top|];
    forall i | 0 <= i < |top| ensures top[i].key in c.keys && top[i].count == Count(c, top[i].key) {
      assert top[i] == sorted[i];
      var m :| 0 <= m < |es| && es[m] == top[i];
    }
  }

  /** No key appears twice among the top entries. */
  lemma TopTenDistinct<K>(c: Counter<K>)
    requires Valid(c)
    ensures var top := TopTen(c);
      forall i, j :: 0 <= i < j < |top| ==> top[i].key != top[j].key
  {
    var es := Entries(c);
    var sorted := SortByCount(es);
    var top := TopTen(c);
    TopTenEntries(c);
    EntriesDistinct(c);
    assert top == sorted[..|top|];
    forall i, j | 0 <= i < j < |top| ensures top[i].key != top[j].key {
      if top[i].key == top[j].key {
        assert top[i] == top[j];
        Twice(sorted, i, j);
        AtMostOnce(es, top[i]);
        assert false;
      }
    }
  }

  /** A key left out of the top entries has a count no larger than any count kept. */
  lemma TopTenMaximal<K>(c: Counter<K>, k: K)
    requires Valid(c) && k in c.keys
    requires forall j :: 0 <= j < |TopTen(c)| ==> TopTen(c)[j].key != k
    ensures forall i :: 0 <= i < |TopTen(c)| ==> Count(c, k) <= TopTen(c)[i].count
  {
    var sorted := SortByCount(Entries(c));
    var p := SortedPosition(c, k);
    BeyondTop(sorted, |TopTen(c)|, p, k);
  }

  /** Where the entry of a key of `c` sits in the sorted entries. */
  lemma SortedPosition<K>(c: Counter<K>, k: K) returns (p: nat)
    requires Valid(c) && k in c.keys
    ensures p < |SortByCount(Entries(c))| && SortByCount(Entries(c))[p] == Entry(k, Count(c, k))
  {
    var es := Entries(c);
    var sorted := SortByCount(es);
    SameElements(sorted, es);
    var m :| 0 <= m < |c.keys| && c.keys[m] == k;
    assert es[m] == Entry(k, Count(c, k));
    p :| 0 <= p < |sorted| && sorted[p] == es[m];
  }

  /** An entry of a descending sequence beyond its first `n` is beaten by each of them. */
  lemma BeyondTop<K>(sorted: seq<Entry<K>>, n: nat, p: nat, k: K)
    requires Descending(sorted) && n <= |sorted| && p < |sorted| && sorted[p].key == k
    requires forall j :: 0 <= j < n ==> sorted[j].key != k
    ensures forall i :: 0 <= i < n ==> sorted[p].count <= sorted[i].count
  {
  }

  /** `c` counts the elements of `s`: every count is the number of occurrences, and they add up to |s|. */
  ghost predicate CountsOf<K(!new)>(c: Counter<K>, s: seq<K>)
  {
    && Valid(c)
    && Total(c) == |s|
    && (forall k :: Count(c, k) == multiset(s)[k])
    && (forall k :: k in c.keys <==> k in s)
  }

  lemma TallyCountsOf<K(!new)>(s: seq<K>)
    ensures CountsOf(Tally(s), s)
  {
    TallyTotal(s);
    TallyCounts(s);
  }

  /**
   * `top` holds the most frequent elements of `s`: at most ten distinct
   * elements with their numbers of occurrences, in non-increasing order,
   * and an element left out means ten were kept, each at least as frequent.
   */
  ghost predicate TopOf<K(!new)>(top: seq<Entry<K>>, s: seq<K>)
  {
    && |top| <= 10
    && Descending(top)
    && (forall i, j :: 0 <= i < j < |top| ==> top[i].key != top[j].key)
    && (forall i :: 0 <= i < |top| ==> top[i].key in s && top[i].count == multiset(s)[top[i].key])
    && (forall k :: k in s && (forall j :: 0 <= j < |top| ==> top[j].key != k) ==>
          |top| == 10 && forall i :: 0 <= i < |top| ==> multiset(s)[k] <= top[i].count)
  }

  /** With fewer than ten keys, every key is among the top entries. */
  lemma KeysInTop<K>(c: Counter<K>, m: nat)
    requires Valid(c) && |c.keys| < 10 && m < |c.keys|
    ensures exists j :: 0 <= j < |TopTen(c)| && TopTen(c)[j].key == c.keys[m]
  {
    var es := Entries(c);
    var sorted := SortByCount(es);
    SameElements(es, sorted);
    assert TopTen(c) == sorted;
    assert es[m] in sorted;
    var j :| 0 <= j < |sorted| && sorted[j] == es[m];
    assert TopTen(c)[j].key == c.keys[m];
  }

  /** An element left out of the top of the tally is beaten by each kept, and ten were kept. */
  lemma TallyTopMaximal<K(!new)>(s: seq<K>, k: K)
    requires k in s && forall j :: 0 <= j < |TopTen(Tally(s))| ==> TopTen(Tally(s))[j].key != k
    ensures |TopTen(Tally(s))| == 10
    ensures forall i :: 0 <= i < |TopTen(Tally(s))| ==> multiset(s)[k] <= TopTen(Tally(s))[i].count
  {
    var c := Tally(s);
    TallyCountsOf(s);
    TopTenEntries(c);
    assert k in c.keys;
    var m :| 0 <= m < |c.keys| && c.keys[m] == k;
    if |c.keys| < 10 {
      KeysInTop(c, m);
      assert false;
    }
    TopTenMaximal(c, k);
  }

  /** The ten first entries of the sorted tally are the most frequent elements. */
  lemma TallyTop<K(!new)>(s: seq<K>)
    ensures TopOf(TopTen(Tally(s)), s)
  {
    var top := TopTen(Tally(s));
    TallyTopKept(s);
    forall k | k in s && (forall j :: 0 <= j < |top| ==> top[j].key != k)
      ensures |top| == 10 && forall i :: 0 <= i < |top| ==> multiset(s)[k] <= top[i].count
    {
      TallyTopMaximal(s, k);
    }
  }

  /** The kept entries: at most ten distinct elements of `s` with their numbers of occurrences, descending. */
  lemma TallyTopKept<K(!new)>(s: seq<K>)
    ensures var top := TopTen(Tally(s));
      && |top| <= 10
      && Descending(top)
      && (forall i, j :: 0 <= i < j < |top| ==> top[i].key != top[j].key)
      && (forall i :: 0 <= i < |top| ==> top[i].key in s && top[i].count == multiset(s)[top[i].key])
  {
    var c := Tally(s);
    var top := TopTen(c);
    TallyCounts(s);
    TopTenEntries(c);
    TopTenDistinct(c);
    forall i | 0 <= i < |top| ensures top[i].key in s && top[i].count == multiset(s)[top[i].key] {
      assert top[i].key in c.keys;
    }
  }
}
