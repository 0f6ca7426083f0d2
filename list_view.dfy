/**
 * The list operations the browsers, the server settings and the entity
 * registries share: Python's indexing, floor division as the list code
 * uses it, `int()` on a float, `list.remove`, and the pygame rectangle test.
 */
module ListView {
  import opened Wrappers

  function Max(a: int, b: int): int { if a < b then b else a }
  function Min(a: int, b: int): int { if a < b then a else b }

  /** Python's `int()` on a float: truncation toward zero. */
  function Trunc(r: real): (i: int)
    ensures 0.0 <= r ==> i as real <= r < i as real + 1.0
    ensures r < 0.0 ==> i as real - 1.0 < r <= i as real
  {
    if 0.0 <= r then r.Floor else -((-r).Floor)
  }

  /** Python's `list[i]`: negative indices count from the end, anything else out of range raises. */
  function PyIndex<T>(s: seq<T>, i: int): (r: Option<T>)
    ensures r.Some? <==> -|s| <= i < |s|
    ensures 0 <= i < |s| ==> r == Some(s[i])
    ensures -|s| <= i < 0 ==> r == Some(s[|s| + i])
  {
    if 0 <= i < |s| then Some(s[i]) else if -|s| <= i < 0 then Some(s[|s| + i]) else None
  }

  /** A multiple of `k` leaves no remainder. */
  lemma MultipleMod(k: int, m: int)
    requires k > 0
    ensures (k * m) % k == 0
  {
    var q, r := (k * m) / k, (k * m) % k;
    assert k * m == k * q + r && 0 <= r < k;
    var d := m - q;
    assert r == k * d by { assert k * (m - q) == k * m - k * q; }
    if d > 0 {
      assert false;
    } else if d < 0 {
      assert false;
    }
  }

  /** The multiples of `k` one step away from a multiple `a` of `k`, up or (negated) down. */
  lemma NextMultiple(a: int, k: int)
    requires k > 0 && a % k == 0
    ensures (a + k) % k == 0 && (-a - k) % k == 0
  {
    var q := a / k;
    assert a + k == k * (q + 1);
    assert -a - k == k * (-q - 1);
    MultipleMod(k, q + 1);
    MultipleMod(k, -q - 1);
  }

  /** The multiple of `visible` at or below a non-negative `index`, by repeated subtraction. */
  function PageStartNat(index: nat, visible: int): (r: nat)
    requires visible > 0
    ensures r <= index < r + visible
  {
    if index < visible then 0 else visible + PageStartNat(index - visible, visible)
  }

  /**
   * `index // visible * visible`: the first position of the page of
   * `visible` rows that holds `index`, also for a negative index.
   */
  function PageStart(index: int, visible: int): (r: int)
    requires visible > 0
    ensures r <= index < r + visible
    ensures index >= 0 ==> r >= 0
  {
    if index >= 0 then PageStartNat(index, visible) else -(PageStartNat(-index - 1, visible) as int) - visible
  }

  /** A page starts at a multiple of its size. */
  lemma {:induction false} PageStartNatAligned(index: nat, visible: int)
    requires visible > 0
    ensures PageStartNat(index, visible) % visible == 0
  {
    if index >= visible {
      PageStartNatAligned(index - visible, visible);
      NextMultiple(PageStartNat(index - visible, visible), visible);
    }
  }

  /** A page starts at a multiple of its size, also for a negative index. */
  lemma PageStartAligned(index: int, visible: int)
    requires visible > 0
    ensures PageStart(index, visible) % visible == 0
  {
    if index >= 0 {
      PageStartNatAligned(index, visible);
    } else {
      PageStartNatAligned(-index - 1, visible);
      NextMultiple(PageStartNat(-index - 1, visible), visible);
    }
  }

  /**
   * The page start is `index // visible * visible`: Python's floor
   * division agrees with Dafny's for a positive divisor.
   */
  lemma PageStartIsFloor(index: int, visible: int)
    requires visible > 0
    ensures PageStart(index, visible) == index / visible * visible
  {
    var r := PageStart(index, visible);
    PageStartAligned(index, visible);
    var m, q := r / visible, index / visible;
    assert r == visible * m;
    var d := m - q;
    assert r - visible * q == visible * d by { assert visible * (m - q) == visible * m - visible * q; }
    assert index == visible * q + index % visible && 0 <= index % visible < visible;
    MulAwayFromZero(visible, d);
    if d > 0 {
      assert false;
    } else if d < 0 {
      assert false;
    }
  }

  /** A non-zero multiple of a positive `k` is at least `k` away from zero. */
  lemma MulAwayFromZero(k: int, d: int)
    requires k > 0
    ensures d >= 1 ==> k * d >= k
    ensures d <= -1 ==> k * d <= -k
  {
    if d >= 1 {
      assert k * d == k * (d - 1) + k;
    } else if d <= -1 {
      assert k * d == -(k * (-d - 1)) - k;
    }
  }

  /** A list comprehension `[x for x in s if p(x)]`: each element kept as often as it occurs, exactly when it passes. */
  function Keep<T(!new)>(s: seq<T>, p: T -> bool): (r: seq<T>)
    ensures forall x :: x in r ==> p(x)
    ensures forall x :: multiset(r)[x] == if p(x) then multiset(s)[x] else 0
  {
    if s == [] then []
    else
      var rest := Keep(s[1..], p);
      assert s == [s[0]] + s[1..];
      if p(s[0]) then [s[0]] + rest else rest
  }

  /** A pygame `Rect(left, top, width, height)` contains the point `(x, y)` (`collidepoint`). */
  predicate InRect(x: int, y: int, left: int, top: int, width: int, height: int)
  {
    left <= x < left + width && top <= y < top + height
  }

  /** No element occurs twice. */
  predicate NoDuplicates<T(==)>(s: seq<T>)
  {
    forall i, j :: 0 <= i < j < |s| ==> s[i] != s[j]
  }

  /** The position of the first occurrence of `x`. */
  function FirstIndex<T(==)>(s: seq<T>, x: T): (i: nat)
    requires x in s
    ensures i < |s| && s[i] == x && x !in s[..i]
  {
    if s[0] == x then 0
    else
      var j := FirstIndex(s[1..], x);
      assert s[..j + 1] == [s[0]] + s[1..][..j];
      j + 1
  }

  /** `list.remove(x)` for an `x` in the list: the list without its first occurrence of `x`. */
  function RemoveFirst<T(==)>(s: seq<T>, x: T): seq<T>
    requires x in s
  {
    var i := FirstIndex(s, x);
    s[..i] + s[i + 1..]
  }

  /** Removing takes out exactly one `x`, and keeps the order of the rest. */
  lemma RemoveFirstCounts<T>(s: seq<T>, x: T)
    requires x in s
    ensures |RemoveFirst(s, x)| == |s| - 1
    ensures multiset(RemoveFirst(s, x)) == multiset(s) - multiset{x}
  {
    var i := FirstIndex(s, x);
    assert s == s[..i] + [x] + s[i + 1..];
  }

  /** Removing an element from a list without duplicates leaves no trace of it and no duplicates. */
  lemma RemoveFirstFromUnique<T>(s: seq<T>, x: T)
    requires x in s && NoDuplicates(s)
    ensures x !in RemoveFirst(s, x) && NoDuplicates(RemoveFirst(s, x))
  {
    var i := FirstIndex(s, x);
    var r := RemoveFirst(s, x);
    assert forall j :: 0 <= j < |r| ==> r[j] == s[if j < i then j else j + 1];
  }

  /** Removing the first `x` from a list whose prefix `a` has none takes out the `x` right after `a`. */
  lemma RemoveFirstAfter<T>(a: seq<T>, x: T, b: seq<T>)
    requires x !in a
    ensures x in a + [x] + b && RemoveFirst(a + [x] + b, x) == a + b
  {
    var s := a + [x] + b;
    assert s[|a|] == x;
    var i := FirstIndex(s, x);
    assert s[..i] == a && s[i + 1..] == b;
  }
}
