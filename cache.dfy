/**
  A bounded most-recently-used list: a linked list with a capacity, new
  objects added at the front, the last one evicted when the list is full,
  and counters of reads (searches) and hits.
*/
module Caches {
  import opened Wrappers

  /** The exceptions the list operations can raise. */
  datatype CacheError =
    | IndexOutOfBounds(index: int)  // get with a bad index
    | NoSuchElement                 // removeLast on an empty list

  /** The position of the first occurrence of x. */
  function IndexOf<T(==)>(xs: seq<T>, x: T): (i: nat)
    requires x in xs
    ensures i < |xs| && xs[i] == x && x !in xs[..i]
  {
    if xs[0] == x then 0
    else
      assert xs == [xs[0]] + xs[1..];
      var k := IndexOf(xs[1..], x);
      assert xs[..k + 1] == [xs[0]] + xs[1..][..k];
      k + 1
  }

  /**
    The list with its first occurrence of x unlinked, the rest in order;
    the list itself when x is absent.
  */
  function RemoveFirst<T(==)>(xs: seq<T>, x: T): (r: seq<T>)
    ensures x !in xs ==> r == xs
    ensures x in xs ==> r == xs[..IndexOf(xs, x)] + xs[IndexOf(xs, x) + 1..]
  {
    if xs == [] then []
    else if xs[0] == x then xs[1..]
    else
      IndexOfTail(xs, x);
      [xs[0]] + RemoveFirst(xs[1..], x)
  }

  /** Past a head that is not x, the first occurrence is one further on than in the tail. */
  lemma IndexOfTail<T>(xs: seq<T>, x: T)
    requires xs != [] && xs[0] != x
    ensures x in xs ==> && x in xs[1..]
                        && IndexOf(xs, x) == IndexOf(xs[1..], x) + 1
                        && xs[..IndexOf(xs, x)] == [xs[0]] + xs[1..][..IndexOf(xs[1..], x)]
                        && xs[IndexOf(xs, x) + 1..] == xs[1..][IndexOf(xs[1..], x) + 1..]
  {
    if x in xs {
      assert xs == [xs[0]] + xs[1..];
      var k := IndexOf(xs[1..], x);
      assert xs[..k + 1] == [xs[0]] + xs[1..][..k];
    }
  }

  /** Removing the first occurrence takes exactly one copy of x out of the list. */
  lemma {:induction false} RemoveFirstCounts<T>(xs: seq<T>, x: T)
    ensures x in xs ==> |RemoveFirst(xs, x)| == |xs| - 1
    ensures multiset(RemoveFirst(xs, x)) == multiset(xs) - multiset{x}
  {
    if x in xs {
      var i := IndexOf(xs, x);
      var front, back := xs[..i], xs[i + 1..];
      assert xs == front + [x] + back;
      assert RemoveFirst(xs, x) == front + back;
      calc {
        multiset(xs) - multiset{x};
        multiset(front) + multiset{x} + multiset(back) - multiset{x};
        multiset(front) + multiset(back);
      }
    } else {
      assert x !in multiset(xs);
      assert multiset(xs) - multiset{x} == multiset(xs);
    }
  }

  /**
    The list after adding x with capacity `size`: the last element is
    dropped first when the list is full, and adding to a full empty list
    (capacity 0) fails because there is no last element to drop.
  */
  function Added<T>(xs: seq<T>, size: int, x: T): (r: Result<seq<T>, CacheError>)
    ensures r.Failure? <==> |xs| == size == 0
    ensures r.Failure? ==> r.error == NoSuchElement
    ensures r.Success? ==>
              && |r.value| == (if |xs| == size then |xs| else |xs| + 1)
              && r.value[0] == x
              && r.value[1..] == xs[..|r.value| - 1]
  {
    if |xs| == size then
      if xs == [] then Failure(NoSuchElement) else Success([x] + xs[..|xs| - 1])
    else Success([x] + xs)
  }

  /** With capacity at least one, adding never takes the list past its capacity. */
  lemma AddedBounded<T>(xs: seq<T>, size: int, x: T)
    requires 1 <= size && |xs| <= size
    ensures Added(xs, size, x).Success? && |Added(xs, size, x).value| <= size
  {
  }

  /** x first, then the list with x's first occurrence unlinked; nothing is dropped. */
  function MovedToTop<T(==)>(xs: seq<T>, x: T): (r: seq<T>)
    ensures |r| == if x in xs then |xs| else |xs| + 1
    ensures r[0] == x
    ensures x !in xs ==> r == [x] + xs
    ensures x in xs ==> r[1..] == xs[..IndexOf(xs, x)] + xs[IndexOf(xs, x) + 1..]
  {
    [x] + RemoveFirst(xs, x)
  }

  /**
    Moving an object already present is a reordering: the same elements,
    the same length, the objects before it shifted back by one and the
    objects after it in place.
  */
  lemma MovedToTopPermutes<T>(xs: seq<T>, x: T)
    requires x in xs
    ensures multiset(MovedToTop(xs, x)) == multiset(xs) && |MovedToTop(xs, x)| == |xs|
    ensures forall i | 0 <= i < IndexOf(xs, x) :: MovedToTop(xs, x)[i + 1] == xs[i]
    ensures forall i | IndexOf(xs, x) < i < |xs| :: MovedToTop(xs, x)[i] == xs[i]
  {
    var r := MovedToTop(xs, x);
    var k := IndexOf(xs, x);
    RemoveFirstCounts(xs, x);
    assert r == [x] + RemoveFirst(xs, x);
    assert multiset(r) == multiset{x} + (multiset(xs) - multiset{x});
    assert x in multiset(xs);
    forall i | k < i < |xs|
      ensures r[i] == xs[i]
    {
      assert r[i] == r[1..][i - 1];
    }
    forall i | 0 <= i < k
      ensures r[i + 1] == xs[i]
    {
      assert r[i + 1] == r[1..][i];
    }
  }

  class Cache<T(==)> {
    var cache: seq<T>
    const cacheSize: int
    var NR: nat
    var NH: nat

    /** Every hit is counted as a read too. */
    ghost predicate Valid()
      reads this
    {
      NH <= NR
    }

    constructor(size: int)
      ensures Valid() && cache == [] && cacheSize == size && NR == 0 && NH == 0
    {
      cache := [];
      cacheSize := size;
      NR, NH := 0, 0;
    }

    /** The object at position index; an index outside the list raises IndexOutOfBounds. */
    function GetObject(index: int): (r: Result<T, CacheError>)
      reads this
      ensures r.Success? <==> 0 <= index < |cache|
      ensures r.Success? ==> r.value == cache[index]
      ensures r.Failure? ==> r.error == IndexOutOfBounds(index)
    {
      if 0 <= index < |cache| then Success(cache[index]) else Failure(IndexOutOfBounds(index))
    }

    /** Evicts the last object when full, then puts obj first. */
    method AddObject(obj: T) returns (res: Outcome<CacheError>)
      modifies this
      ensures res.Pass? <==> Added(old(cache), cacheSize, obj).Success?
      ensures res.Pass? ==> cache == Added(old(cache), cacheSize, obj).value
      ensures res.Fail? ==> res.error == NoSuchElement && cache == old(cache)
      ensures NR == old(NR) && NH == old(NH)
    {
      if |cache| == cacheSize {
        if cache == [] {
          return Fail(NoSuchElement);
        }
        cache := cache[..|cache| - 1];
      }
      cache := [obj] + cache;
      res := Pass;
    }

    /** Unlinks the first occurrence of obj, reporting whether there was one. */
    method RemoveObject(obj: T) returns (removed: bool)
      modifies this
      ensures removed <==> obj in old(cache)
      ensures cache == RemoveFirst(old(cache), obj)
      ensures NR == old(NR) && NH == old(NH)
    {
      removed := obj in cache;
      cache := RemoveFirst(cache, obj);
    }

    /** Empties the list; the counters are kept. */
    method ClearCache()
      modifies this
      ensures cache == [] && NR == old(NR) && NH == old(NH)
    {
      cache := [];
    }

    /**
      Counts a read and looks obj up from the front.  A hit is counted and
      moves obj to the front; a miss leaves the list as it was.
    */
    method Search(obj: T) returns (isHit: bool)
      modifies this
      ensures NR == old(NR) + 1
      ensures isHit <==> obj in old(cache)
      ensures NH == if isHit then old(NH) + 1 else old(NH)
      ensures cache == if isHit then MovedToTop(old(cache), obj) else old(cache)
      ensures isHit ==> |cache| == old(|cache|) && multiset(cache) == old(multiset(cache))
      ensures old(Valid()) ==> Valid()
    {
      NR := NR + 1;
      isHit := false;
      var i := 0;
      while i < |cache|
        invariant 0 <= i <= |cache|
        invariant cache == old(cache) && NR == old(NR) + 1 && NH == old(NH)
        invariant obj !in cache[..i]
        invariant !isHit
      {
        if cache[i] == obj {
          isHit := true;
          NH := NH + 1;
          MovedToTopPermutes(cache, obj);
          MoveToTop(obj);
          break;
        }
        assert cache[..i + 1] == cache[..i] + [cache[i]];
        i := i + 1;
      }
      assert !isHit ==> cache[..i] == cache;
    }

    /** Unlinks obj's first occurrence, if any, and puts obj first; nothing is evicted. */
    method MoveToTop(obj: T)
      modifies this
      ensures cache == MovedToTop(old(cache), obj)
      ensures NR == old(NR) && NH == old(NH)
    {
      cache := RemoveFirst(cache, obj);
      cache := [obj] + cache;
    }

    /** The number of searches so far; never below the number of hits. */
    function GetNR(): (r: nat)
      reads this
      ensures Valid() ==> NH <= r
    {
      NR
    }

    /** The number of hits so far; never above the number of searches. */
    function GetNH(): (r: nat)
      reads this
      ensures Valid() ==> r <= NR
    {
      NH
    }
  }
}
