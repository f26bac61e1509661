/**
 * One cell's pencil-mark list and the toggle that `_add_pencil_mark`
 * performs on it (src/killer_sudoku_state.py): a present mark is removed, an
 * absent one is appended and the list re-sorted, and the mark 0 does nothing.
 */
module PencilMarks {

  predicate StrictlySorted(m: seq<int>) {
    forall i, j :: 0 <= i < j < |m| ==> m[i] < m[j]
  }

  /** What every pencil list of the game keeps: sorted, duplicate-free, digits 1 to 9. */
  predicate MarksOk(m: seq<int>) {
    StrictlySorted(m) && forall i :: 0 <= i < |m| ==> 1 <= m[i] <= 9
  }

  /**
   * `markings.append(x)` followed by `markings.sort()`: on a sorted list the
   * result is the sorted arrangement of the old marks together with `x`
   * (sortedness is InsertKeepsSorted).
   */
  function Insert(m: seq<int>, x: int): (r: seq<int>)
    ensures multiset(r) == multiset(m) + multiset{x}
  {
    if m == [] then [x]
    else if x <= m[0] then [x] + m
    else
      assert m == [m[0]] + m[1..];
      [m[0]] + Insert(m[1..], x)
  }

  /** `markings.remove(x)`: drops the first occurrence of `x`. */
  function Remove(m: seq<int>, x: int): (r: seq<int>)
    ensures multiset(r) == multiset(m) - multiset{x}
  {
    if m == [] then []
    else
      assert m == [m[0]] + m[1..];
      if m[0] == x then m[1..]
      else [m[0]] + Remove(m[1..], x)
  }

  lemma {:induction false} InsertKeepsSorted(m: seq<int>, x: int)
    requires StrictlySorted(m) && x !in m
    ensures StrictlySorted(Insert(m, x))
  {
    if m != [] && x > m[0] {
      var rest := Insert(m[1..], x);
      InsertKeepsSorted(m[1..], x);
      forall k | 0 <= k < |rest| ensures m[0] < rest[k] {
        assert rest[k] in multiset(rest);
        if rest[k] != x {
          assert rest[k] in m[1..];
        }
      }
    }
  }

  /** Removing never introduces a mark. */
  lemma RemoveElements(m: seq<int>, x: int)
    ensures forall y :: y in Remove(m, x) ==> y in m
  {
    forall y | y in Remove(m, x) ensures y in m {
      assert y in multiset(Remove(m, x));
    }
  }

  lemma {:induction false} RemoveKeepsSorted(m: seq<int>, x: int)
    requires StrictlySorted(m)
    ensures StrictlySorted(Remove(m, x))
  {
    if m != [] && m[0] != x {
      var tail := m[1..];
      var rest := Remove(tail, x);
      assert Remove(m, x) == [m[0]] + rest;
      RemoveKeepsSorted(tail, x);
      RemoveElements(tail, x);
      forall k | 0 <= k < |rest| ensures m[0] < rest[k] {
        assert rest[k] in rest;
        var j :| 0 <= j < |tail| && tail[j] == rest[k];
        assert tail[j] == m[j + 1];
      }
    }
  }

  /**
   * The pencil toggle of `_add_pencil_mark`: as a multiset, the list loses
   * one copy of a present mark or gains an absent one, and 0 changes nothing
   * (what that means for membership and order is ToggleMembership).
   */
  function Toggle(m: seq<int>, mark: int): (r: seq<int>)
    ensures mark == 0 ==> r == m
    ensures mark != 0 && mark in m ==> multiset(r) == multiset(m) - multiset{mark}
    ensures mark != 0 && mark !in m ==> multiset(r) == multiset(m) + multiset{mark}
  {
    if mark == 0 then m
    else if mark in m then Remove(m, mark)
    else Insert(m, mark)
  }

  /**
   * The mark 0 leaves the list alone; any other mark flips between present
   * and absent (on a duplicate-free list), every other mark stays as present
   * or absent as it was, and a sorted duplicate-free list stays so.
   */
  lemma ToggleMembership(m: seq<int>, mark: int)
    ensures mark == 0 ==> Toggle(m, mark) == m
    ensures mark != 0 && StrictlySorted(m) ==> (mark in Toggle(m, mark) <==> mark !in m)
    ensures forall y :: y != mark ==> (y in Toggle(m, mark) <==> y in m)
    ensures StrictlySorted(m) ==> StrictlySorted(Toggle(m, mark))
  {
    var r := Toggle(m, mark);
    if mark == 0 {
    } else if mark in m {
      if StrictlySorted(m) {
        RemoveDropsAll(m, mark);
        RemoveKeepsSorted(m, mark);
      }
    } else {
      assert mark in multiset(r);
      if StrictlySorted(m) {
        InsertKeepsSorted(m, mark);
      }
    }
    forall y | y != mark ensures y in r <==> y in m {
      assert y in r <==> y in multiset(r);
      assert y in m <==> y in multiset(m);
    }
  }

  /** A strictly sorted list holds `x` at most once, so removing it once removes it. */
  lemma {:induction false} RemoveDropsAll(m: seq<int>, x: int)
    requires StrictlySorted(m)
    ensures x !in Remove(m, x)
  {
    if m == [] {
    } else if m[0] == x {
      assert forall k :: 0 <= k < |m[1..]| ==> m[1..][k] > x by {
        forall k | 0 <= k < |m[1..]| ensures m[1..][k] > x {
          assert m[1..][k] == m[k + 1];
        }
      }
    } else {
      assert StrictlySorted(m[1..]);
      RemoveDropsAll(m[1..], x);
    }
  }

  /** A list of valid marks is increasing from at least 1, so its k-th entry is at least k + 1. */
  lemma {:induction false} MarkAtLeastIndex(m: seq<int>, k: nat)
    requires MarksOk(m) && k < |m|
    ensures m[k] >= k + 1
  {
    if k > 0 {
      MarkAtLeastIndex(m, k - 1);
    }
  }

  /** The bound the source asserts after every toggle: at most nine marks. */
  lemma MarksAtMostNine(m: seq<int>)
    requires MarksOk(m)
    ensures |m| <= 9
  {
    if |m| > 0 {
      MarkAtLeastIndex(m, |m| - 1);
    }
  }

  /** Toggling a digit 0..9 keeps a pencil list sorted, duplicate-free and within 1..9. */
  lemma ToggleKeepsMarksOk(m: seq<int>, mark: int)
    requires MarksOk(m) && 0 <= mark <= 9
    ensures MarksOk(Toggle(m, mark))
    ensures |Toggle(m, mark)| <= 9
  {
    var r := Toggle(m, mark);
    ToggleMembership(m, mark);
    forall i | 0 <= i < |r| ensures 1 <= r[i] <= 9 {
      assert r[i] in r;
      if r[i] != mark {
        var j :| 0 <= j < |m| && m[j] == r[i];
      }
    }
    MarksAtMostNine(r);
  }

  lemma {:induction false} RemoveAfterInsert(m: seq<int>, x: int)
    requires x !in m
    ensures Remove(Insert(m, x), x) == m
  {
    if m == [] {
      assert Insert(m, x) == [x];
    } else if x <= m[0] {
      var i := [x] + m;
      assert Insert(m, x) == i && i[0] == x && i[1..] == m;
    } else {
      var rest := Insert(m[1..], x);
      var i := [m[0]] + rest;
      assert Insert(m, x) == i && i[0] == m[0] && i[1..] == rest;
      assert m[0] != x;
      assert x !in m[1..];
      RemoveAfterInsert(m[1..], x);
      assert Remove(i, x) == [m[0]] + Remove(rest, x);
      assert [m[0]] + m[1..] == m;
    }
  }

  /** Removing the smallest mark and inserting it again rebuilds the list. */
  lemma InsertAfterRemoveHead(m: seq<int>, x: int)
    requires StrictlySorted(m) && m != [] && m[0] == x
    ensures Insert(Remove(m, x), x) == m
  {
    var tail := m[1..];
    assert m == [x] + tail;
    assert Remove(m, x) == tail;
    if tail != [] {
      assert x < m[1] && tail[0] == m[1];
      assert Insert(tail, x) == [x] + tail;
    }
  }

  lemma {:induction false} InsertAfterRemove(m: seq<int>, x: int)
    requires StrictlySorted(m) && x in m
    ensures Insert(Remove(m, x), x) == m
  {
    if m[0] == x {
      InsertAfterRemoveHead(m, x);
    } else {
      var tail := m[1..];
      var k :| 0 <= k < |m| && m[k] == x;
      assert m[0] < x && k > 0 && tail[k - 1] == x;
      assert StrictlySorted(tail);
      InsertAfterRemove(tail, x);
      InsertAfterRemoveTail(m, x);
    }
  }

  /** A mark past the head: the round trip on the tail gives the round trip on the list. */
  lemma InsertAfterRemoveTail(m: seq<int>, x: int)
    requires m != [] && m[0] < x
    requires Insert(Remove(m[1..], x), x) == m[1..]
    ensures Insert(Remove(m, x), x) == m
  {
    var tail := m[1..];
    assert m == [m[0]] + tail;
    var rest := Remove(tail, x);
    var r := [m[0]] + rest;
    assert Remove(m, x) == r;
    assert r[0] == m[0] && r[1..] == rest;
    assert Insert(r, x) == [m[0]] + Insert(rest, x);
  }

  /** Toggling the same mark twice gives back the original pencil list. */
  lemma ToggleTwice(m: seq<int>, mark: int)
    requires StrictlySorted(m)
    ensures Toggle(Toggle(m, mark), mark) == m
  {
    if mark == 0 {
    } else if mark in m {
      RemoveDropsAll(m, mark);
      InsertAfterRemove(m, mark);
    } else {
      assert mark in Insert(m, mark) by { assert mark in multiset(Insert(m, mark)); }
      RemoveAfterInsert(m, mark);
    }
  }
}
