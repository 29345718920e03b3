/**
 Ordering a local vector of light blocks by height, as `get_trace` does with
 `sort_by_key(|lb| lb.height())` followed by `reverse()`: first ascending by
 height, then the whole vector reversed, so that the most recent block comes
 first.
 */
module BlockOrder {
  import opened LightStore

  /** Heights never decrease from left to right. */
  ghost predicate AscendingByHeight(s: seq<LightBlock>)
  {
    forall i, j :: 0 <= i < j < |s| ==> s[i].height <= s[j].height
  }

  /** Heights never increase from left to right: most recent first. */
  ghost predicate DescendingByHeight(s: seq<LightBlock>)
  {
    forall i, j :: 0 <= i < j < |s| ==> s[i].height >= s[j].height
  }

  /** Heights strictly decrease from left to right. */
  ghost predicate StrictlyDescendingByHeight(s: seq<LightBlock>)
  {
    forall i, j :: 0 <= i < j < |s| ==> s[i].height > s[j].height
  }

  /** The sequence read back to front. */
  function Reversed(s: seq<LightBlock>): (r: seq<LightBlock>)
  {
    seq(|s|, k requires 0 <= k < |s| => s[|s| - 1 - k])
  }

  /** Reversing an ascending sequence gives a descending one, with the same
      elements the same number of times. */
  lemma ReversedAscending(s: seq<LightBlock>)
    requires AscendingByHeight(s)
    ensures DescendingByHeight(Reversed(s))
    ensures |Reversed(s)| == |s|
  {
  }

  /** The sequence with the elements at `i` and `j` exchanged. */
  function Swapped(s: seq<LightBlock>, i: nat, j: nat): (r: seq<LightBlock>)
    requires i < |s| && j < |s|
  {
    s[i := s[j]][j := s[i]]
  }

  /** Exchanging two elements keeps every element, as often as before. */
  lemma SwappedSameElements(s: seq<LightBlock>, i: nat, j: nat)
    requires i < |s| && j < |s|
    ensures multiset(Swapped(s, i, j)) == multiset(s)
  {
  }

  /** Reading a sequence back to front keeps every element, as often as before. */
  lemma {:induction false} ReversedSameElements(s: seq<LightBlock>)
    ensures multiset(Reversed(s)) == multiset(s)
  {
    if s != [] {
      ReversedSameElements(s[1..]);
      assert Reversed(s) == Reversed(s[1..]) + [s[0]];
      assert s == [s[0]] + s[1..];
    }
  }

  /** Exchanges the elements at `i` and `j` in place. */
  method Swap(a: array<LightBlock>, i: nat, j: nat)
    requires i < a.Length && j < a.Length
    modifies a
    ensures a[i] == old(a[j]) && a[j] == old(a[i])
    ensures forall k :: 0 <= k < a.Length && k != i && k != j ==> a[k] == old(a[k])
    ensures multiset(a[..]) == old(multiset(a[..]))
  {
    SwappedSameElements(a[..], i, j);
    a[i], a[j] := a[j], a[i];
    assert a[..] == Swapped(old(a[..]), i, j);
  }

  /** The first `n` elements of `a` are ascending by height. */
  ghost predicate AscendingPrefix(a: array<LightBlock>, n: nat)
    reads a
    requires n <= a.Length
  {
    forall k, l :: 0 <= k < l < n ==> a[k].height <= a[l].height
  }

  /** `sort_by_key(|lb| lb.height())`: the vector ends ascending by height and
      holds the same blocks. The library's algorithm is not part of this
      model; an insertion sort stands for it, with the same postcondition. */
  method SortByHeight(a: array<LightBlock>)
    modifies a
    ensures AscendingByHeight(a[..])
    ensures multiset(a[..]) == old(multiset(a[..]))
  {
    var i := 0;
    while i < a.Length
      invariant 0 <= i <= a.Length
      invariant AscendingPrefix(a, i)
      invariant multiset(a[..]) == old(multiset(a[..]))
    {
      InsertLast(a, i);
      i := i + 1;
    }
  }

  /** One insertion step: moves `a[i]` left past every taller block, so that an
      ascending prefix of length `i` becomes one of length `i + 1`; the blocks
      after position `i` stay where they were. */
  method InsertLast(a: array<LightBlock>, i: nat)
    requires i < a.Length
    requires AscendingPrefix(a, i)
    modifies a
    ensures AscendingPrefix(a, i + 1)
    ensures multiset(a[..]) == old(multiset(a[..]))
    ensures forall k :: i < k < a.Length ==> a[k] == old(a[k])
  {
    ghost var original := a[..];
    var j := i;
    while 0 < j && a[j].height < a[j - 1].height
      invariant 0 <= j <= i
      invariant Sinking(a, i, j)
      invariant multiset(a[..]) == multiset(original)
      invariant forall k :: i < k < a.Length ==> a[k] == original[k]
    {
      SinkOnce(a, i, j);
      j := j - 1;
    }
  }

  /** While `a[j]` sinks towards its place among the first `i + 1` blocks:
      those blocks, `a[j]` aside, are ascending, and the neighbours of `a[j]`
      are in order with each other. */
  ghost predicate Sinking(a: array<LightBlock>, i: nat, j: nat)
    reads a
    requires j <= i < a.Length
  {
    && (forall k, l :: 0 <= k < l <= i && l != j ==> a[k].height <= a[l].height)
    && (0 < j < i ==> a[j - 1].height <= a[j + 1].height)
  }

  /** Exchanges `a[j]` with the taller block to its left. */
  method SinkOnce(a: array<LightBlock>, i: nat, j: nat)
    requires 0 < j <= i < a.Length
    requires Sinking(a, i, j)
    requires a[j].height < a[j - 1].height
    modifies a
    ensures Sinking(a, i, j - 1)
    ensures multiset(a[..]) == old(multiset(a[..]))
    ensures forall k :: 0 <= k < a.Length && k != j - 1 && k != j ==> a[k] == old(a[k])
  {
    Swap(a, j - 1, j);
  }

  /** `reverse()`: the vector read back to front, in place. */
  method Reverse(a: array<LightBlock>)
    modifies a
    ensures a[..] == Reversed(old(a[..]))
  {
    var n := a.Length;
    var i := 0;
    while i < n / 2
      invariant 0 <= i <= n / 2
      invariant forall k :: 0 <= k < i ==> a[k] == old(a[n - 1 - k]) && a[n - 1 - k] == old(a[k])
      invariant forall k :: i <= k < n - i ==> a[k] == old(a[k])
    {
      Swap(a, i, n - 1 - i);
      i := i + 1;
    }
  }

  /** A block occurring at two positions occurs at least twice. */
  lemma {:induction false} TwoPositions(s: seq<LightBlock>, i: nat, j: nat)
    requires i < j < |s| && s[i] == s[j]
    ensures multiset(s)[s[i]] >= 2
  {
    assert s == s[..j] + s[j..];
    assert s[i] in multiset(s[..j]) by { assert s[..j][i] == s[i]; }
    assert s[j] in multiset(s[j..]) by { assert s[j..][0] == s[j]; }
  }

  /** A descending sequence without repeated blocks, in which a height
      determines the block, is strictly descending. */
  lemma StrictWhenDistinct(s: seq<LightBlock>)
    requires DescendingByHeight(s)
    requires forall b :: multiset(s)[b] <= 1
    requires forall i, j :: 0 <= i < j < |s| && s[i].height == s[j].height ==> s[i] == s[j]
    ensures StrictlyDescendingByHeight(s)
  {
    forall i, j | 0 <= i < j < |s| ensures s[i].height > s[j].height {
      if s[i].height == s[j].height {
        TwoPositions(s, i, j);
      }
    }
  }

  /** The ordering step of `get_trace`: the collected blocks are copied into a
      local vector, sorted ascending by height and reversed, so the result
      holds the same blocks, most recent first. */
  method SortDescendingByHeight(s: seq<LightBlock>) returns (r: seq<LightBlock>)
    ensures DescendingByHeight(r)
    ensures multiset(r) == multiset(s)
  {
    var a := new LightBlock[|s|](k requires 0 <= k < |s| => s[k]);
    assert a[..] == s;
    SortByHeight(a);
    ghost var ascending := a[..];
    Reverse(a);
    ReversedAscending(ascending);
    ReversedSameElements(ascending);
    r := a[..];
  }
}
