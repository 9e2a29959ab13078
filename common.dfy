// Value types shared by every component of the relay: optional values,
// results of operations that can throw, the observable state of a file,
// and the JavaScript array operations the source builds its pipelines from.
module Common {

  datatype Option<+T> = None | Some(value: T)

  /** The outcome of an operation that either returns a value or throws. */
  datatype Result<+T> = Ok(value: T) | Err(message: string)

  /**
   * What reading a file yields: it is absent (`existsSync` is false), it
   * exists but reading or decoding it throws, or it yields `content`.
   */
  datatype FileState<+T> = Missing | Unreadable(reason: string) | Present(content: T)

  function Min(a: int, b: int): int { if a <= b then a else b }

  /**
   * Where JavaScript's `Array.prototype.slice(start)` begins: a negative
   * `start` counts from the end, and both directions are clamped to the array.
   */
  function SliceStart(start: int, n: nat): (k: nat)
    ensures k <= n
    ensures start < 0 ==> k == if n + start < 0 then 0 else n + start
    ensures start >= 0 ==> k == Min(start, n)
  {
    if start < 0 then (if n + start < 0 then 0 else n + start)
    else Min(start, n)
  }

  /** JavaScript's `s.slice(start)`. */
  function SliceFrom<T>(s: seq<T>, start: int): seq<T>
  {
    s[SliceStart(start, |s|)..]
  }

  /** JavaScript's `s.slice(0, count)` for a non-negative count. */
  function TakeFirst<T>(s: seq<T>, count: nat): (r: seq<T>)
    ensures |r| == Min(count, |s|)
    ensures r <= s
  {
    s[..Min(count, |s|)]
  }

  /**
   * `s.slice(-k)` with k >= 1 keeps the last min(k, |s|) elements, in order
   * (with k = 0 it would keep everything, since -0 is 0).
   */
  lemma KeepLast<T>(s: seq<T>, k: int)
    requires k >= 1
    ensures |SliceFrom(s, -k)| == Min(k, |s|)
    ensures SliceFrom(s, -k) == s[|s| - Min(k, |s|)..]
    ensures |s| <= k ==> SliceFrom(s, -k) == s
  {
  }

  /**
   * The append window used by the dashboard: `[...prev, x].slice(-cap)`.
   * The new element is last, the size never exceeds `cap`, nothing is lost
   * while there is room, and a full window loses exactly its oldest element.
   */
  lemma AppendWindow<T>(prev: seq<T>, x: T, cap: int)
    requires cap >= 1
    ensures var r := SliceFrom(prev + [x], -cap);
      && |r| == Min(cap, |prev| + 1)
      && r[|r| - 1] == x
      && r == (prev + [x])[|prev| + 1 - |r|..]
      && (|prev| < cap ==> r == prev + [x])
      && (|prev| == cap ==> r == prev[1..] + [x])
  {
    var r := SliceFrom(prev + [x], -cap);
    KeepLast(prev + [x], cap);
    if |prev| == cap {
      assert r == (prev + [x])[1..];
      assert (prev + [x])[1..] == prev[1..] + [x];
    }
  }

  /** Windowing before appending loses nothing that windowing after would keep. */
  lemma WindowOfAppend<T>(s: seq<T>, x: T, cap: int)
    requires cap >= 1
    ensures SliceFrom(SliceFrom(s, -cap) + [x], -cap) == SliceFrom(s + [x], -cap)
  {
    KeepLast(s, cap);
    KeepLast(s + [x], cap);
    var w := SliceFrom(s, -cap);
    KeepLast(w + [x], cap);
    if |s| >= cap {
      assert SliceFrom(w + [x], -cap) == w[1..] + [x];
      assert w[1..] == s[|s| + 1 - cap..];
      assert (s + [x])[|s| + 1 - cap..] == s[|s| + 1 - cap..] + [x];
    }
  }

  /** The reversal performed by `Array.prototype.reverse`. */
  function Reverse<T>(s: seq<T>): (r: seq<T>)
    ensures |r| == |s|
    ensures forall i :: 0 <= i < |s| ==> r[i] == s[|s| - 1 - i]
  {
    if s == [] then [] else Reverse(s[1..]) + [s[0]]
  }

  /**
   * `xs.filter(Boolean)` after a map whose result is an object or null:
   * keeps the present values, in order.
   */
  function Somes<T>(s: seq<Option<T>>): (r: seq<T>)
    ensures |r| <= |s|
    ensures forall i :: 0 <= i < |r| ==> Some(r[i]) in s
    ensures forall i :: 0 <= i < |s| && s[i].Some? ==> s[i].value in r
  {
    if s == [] then []
    else
      var rest := Somes(s[1..]);
      assert forall i :: 1 <= i < |s| ==> s[i] == s[1..][i - 1];
      match s[0]
      case None => rest
      case Some(v) => [v] + rest
  }

  /** When nothing is dropped, `Somes` keeps every value in its position. */
  lemma {:induction false} SomesAllPresent<T>(s: seq<Option<T>>)
    requires forall i :: 0 <= i < |s| ==> s[i].Some?
    ensures |Somes(s)| == |s|
    ensures forall i :: 0 <= i < |s| ==> Somes(s)[i] == s[i].value
  {
    if s != [] {
      SomesAllPresent(s[1..]);
    }
  }

  /** `Somes` distributes over concatenation. */
  lemma {:induction false} SomesAppend<T>(a: seq<Option<T>>, b: seq<Option<T>>)
    ensures Somes(a + b) == Somes(a) + Somes(b)
  {
    if a != [] {
      assert (a + b)[0] == a[0];
      assert (a + b)[1..] == a[1..] + b;
      SomesAppend(a[1..], b);
      if a[0].Some? {
        assert [a[0].value] + (Somes(a[1..]) + Somes(b)) == ([a[0].value] + Somes(a[1..])) + Somes(b);
      }
    } else {
      assert a + b == b;
    }
  }

  /** `Somes` of a final present value puts that value last. */
  lemma SomesLast<T>(s: seq<Option<T>>, v: T)
    ensures Somes(s + [Some(v)]) == Somes(s) + [v]
  {
    SomesAppend(s, [Some(v)]);
  }

  /** Newest first: with nothing dropped, the reversed values are the options read from the end. */
  lemma ReverseSomesAllPresent<T>(s: seq<Option<T>>)
    requires forall i :: 0 <= i < |s| ==> s[i].Some?
    ensures |Reverse(Somes(s))| == |s|
    ensures forall i :: 0 <= i < |s| ==> Some(Reverse(Somes(s))[i]) == s[|s| - 1 - i]
  {
    SomesAllPresent(s);
  }
}
