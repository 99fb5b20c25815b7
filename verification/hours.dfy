/** The list of selected hours (`selectedHours` and `handleHourToggle` in `src/App.tsx`):
    toggling removes a present hour, or appends an absent one and sorts the list ascending. */
module HourSet {

  predicate NonDecreasing(s: seq<int>)
  {
    forall i, j :: 0 <= i < j < |s| ==> s[i] <= s[j]
  }

  /** Sorted ascending and free of duplicates. */
  predicate StrictlySorted(s: seq<int>)
  {
    forall i, j :: 0 <= i < j < |s| ==> s[i] < s[j]
  }

  /** The head of a sorted list is its least element. */
  lemma HeadLeast(s: seq<int>)
    requires NonDecreasing(s) && |s| > 0
    ensures forall x :: x in s ==> s[0] <= x
  {
  }

  /** The head of a sorted, duplicate-free list is below every later element. */
  lemma HeadStrictlyLeast(s: seq<int>)
    requires StrictlySorted(s) && |s| > 0
    ensures StrictlySorted(s[1..])
    ensures forall x :: x in s[1..] ==> s[0] < x
  {
  }

  /** Prepending an element no larger than every element keeps a list in ascending order. */
  lemma ConsNonDecreasing(a: int, s: seq<int>)
    requires NonDecreasing(s) && forall x :: x in s ==> a <= x
    ensures NonDecreasing([a] + s)
  {
    var t := [a] + s;
    forall i, j | 0 <= i < j < |t|
      ensures t[i] <= t[j]
    {
      assert t[j] == s[j - 1];
      if i > 0 {
        assert t[i] == s[i - 1];
      } else {
        assert s[j - 1] in s;
      }
    }
  }

  /** Prepending an element smaller than every element keeps a list strictly ascending. */
  lemma ConsStrictlySorted(a: int, s: seq<int>)
    requires StrictlySorted(s) && forall x :: x in s ==> a < x
    ensures StrictlySorted([a] + s)
  {
    var t := [a] + s;
    forall i, j | 0 <= i < j < |t|
      ensures t[i] < t[j]
    {
      assert t[j] == s[j - 1];
      if i > 0 {
        assert t[i] == s[i - 1];
      } else {
        assert s[j - 1] in s;
      }
    }
  }

  /** `prev.filter(h => h !== hour)`. */
  function Remove(s: seq<int>, hour: int): (r: seq<int>)
    ensures forall x :: x in r <==> x in s && x != hour
    ensures StrictlySorted(s) ==> StrictlySorted(r)
    ensures |r| <= |s|
  {
    if |s| == 0 then []
    else
      var rest := Remove(s[1..], hour);
      if s[0] == hour then rest
      else
        if StrictlySorted(s) then
          HeadStrictlyLeast(s);
          ConsStrictlySorted(s[0], rest);
          [s[0]] + rest
        else [s[0]] + rest
  }

  /** One step of a stable insertion sort: `hour` placed before the first element greater
      than it. */
  function Insert(s: seq<int>, hour: int): (r: seq<int>)
    ensures multiset(r) == multiset(s) + multiset{hour}
    ensures forall x :: x in r <==> x in s || x == hour
  {
    if |s| == 0 then [hour]
    else if hour < s[0] then [hour] + s
    else
      assert s == [s[0]] + s[1..];
      [s[0]] + Insert(s[1..], hour)
  }

  /** Insertion keeps a list in ascending order. */
  lemma {:induction false} InsertNonDecreasing(s: seq<int>, hour: int)
    requires NonDecreasing(s)
    ensures NonDecreasing(Insert(s, hour))
  {
    if |s| > 0 {
      HeadLeast(s);
      if hour >= s[0] {
        InsertNonDecreasing(s[1..], hour);
        ConsNonDecreasing(s[0], Insert(s[1..], hour));
      } else {
        ConsNonDecreasing(hour, s);
      }
    }
  }

  /** Inserting an absent element into a sorted, duplicate-free list keeps it so. */
  lemma {:induction false} InsertStrictlySorted(s: seq<int>, hour: int)
    requires StrictlySorted(s) && hour !in s
    ensures StrictlySorted(Insert(s, hour))
  {
    if |s| > 0 {
      HeadStrictlyLeast(s);
      if hour > s[0] {
        InsertStrictlySorted(s[1..], hour);
        ConsStrictlySorted(s[0], Insert(s[1..], hour));
      } else {
        assert s[0] in s;
        ConsStrictlySorted(hour, s);
      }
    }
  }

  /** `.sort((a, b) => a - b)`: ascending numeric order, as a permutation of the input. */
  function SortAscending(s: seq<int>): (r: seq<int>)
    ensures NonDecreasing(r)
    ensures multiset(r) == multiset(s)
  {
    if |s| == 0 then []
    else
      assert s == s[..|s| - 1] + [s[|s| - 1]];
      InsertNonDecreasing(SortAscending(s[..|s| - 1]), s[|s| - 1]);
      Insert(SortAscending(s[..|s| - 1]), s[|s| - 1])
  }

  /** `handleHourToggle(hour)` applied to the current list: a present hour is dropped, with
      nothing new appearing; an absent one is added once and the list comes back in ascending
      order. */
  function Toggle(hours: seq<int>, hour: int): (r: seq<int>)
    ensures hour in hours ==> hour !in r && |r| <= |hours| && forall x :: x in r ==> x in hours
    ensures hour !in hours ==> NonDecreasing(r) && multiset(r) == multiset(hours) + multiset{hour}
  {
    if hour in hours then Remove(hours, hour) else SortAscending(hours + [hour])
  }

  /** Sorting an already sorted list changes nothing. */
  lemma {:induction false} SortSorted(s: seq<int>)
    requires NonDecreasing(s)
    ensures SortAscending(s) == s
  {
    if |s| > 0 {
      var init := s[..|s| - 1];
      SortSorted(init);
      InsertLast(init, s[|s| - 1]);
      assert init + [s[|s| - 1]] == s;
    }
  }

  /** Inserting an element no smaller than every element appends it. */
  lemma {:induction false} InsertLast(s: seq<int>, hour: int)
    requires forall i :: 0 <= i < |s| ==> s[i] <= hour
    ensures Insert(s, hour) == s + [hour]
  {
    if |s| > 0 {
      assert s[0] <= hour;
      assert forall i :: 0 <= i < |s[1..]| ==> s[1..][i] == s[i + 1];
      InsertLast(s[1..], hour);
      assert [s[0]] + (s[1..] + [hour]) == s + [hour];
    }
  }

  /** Appending to a sorted list and sorting is a single insertion. */
  lemma SortAppend(s: seq<int>, hour: int)
    requires NonDecreasing(s)
    ensures SortAscending(s + [hour]) == Insert(s, hour)
  {
    assert (s + [hour])[..|s|] == s;
    SortSorted(s);
  }

  /** Removing a freshly inserted element gives the list back. */
  lemma {:induction false} RemoveInsert(s: seq<int>, hour: int)
    requires hour !in s
    ensures Remove(Insert(s, hour), hour) == s
  {
    if |s| > 0 && hour >= s[0] {
      RemoveInsert(s[1..], hour);
      assert [s[0]] + s[1..] == s;
    } else if |s| > 0 {
      RemoveAbsent(s, hour);
    }
  }

  /** Removing an absent element changes nothing. */
  lemma {:induction false} RemoveAbsent(s: seq<int>, hour: int)
    requires hour !in s
    ensures Remove(s, hour) == s
  {
    if |s| > 0 {
      RemoveAbsent(s[1..], hour);
      assert [s[0]] + s[1..] == s;
    }
  }

  /** In a sorted, duplicate-free list, re-inserting a removed element restores the list. */
  lemma {:induction false} InsertRemove(s: seq<int>, hour: int)
    requires StrictlySorted(s) && hour in s
    ensures Insert(Remove(s, hour), hour) == s
  {
    HeadStrictlyLeast(s);
    if s[0] == hour {
      RemoveAbsent(s[1..], hour);
      assert [hour] + s[1..] == s;
    } else {
      InsertRemove(s[1..], hour);
      assert [s[0]] + s[1..] == s;
    }
  }

  /** Toggling flips the membership of exactly one hour. */
  lemma ToggleMembership(hours: seq<int>, hour: int, x: int)
    ensures x in Toggle(hours, hour) <==> (if x == hour then hour !in hours else x in hours)
  {
    if hour !in hours {
      assert x in hours + [hour] <==> x in multiset(hours + [hour]);
    }
  }

  /** A sorted, duplicate-free list stays sorted and duplicate-free. */
  lemma ToggleKeepsStrictlySorted(hours: seq<int>, hour: int)
    requires StrictlySorted(hours)
    ensures StrictlySorted(Toggle(hours, hour))
  {
    if hour !in hours {
      SortAppend(hours, hour);
      InsertStrictlySorted(hours, hour);
    }
  }

  /** Toggling the same hour twice restores a sorted, duplicate-free list. */
  lemma ToggleTwice(hours: seq<int>, hour: int)
    requires StrictlySorted(hours)
    ensures Toggle(Toggle(hours, hour), hour) == hours
  {
    if hour in hours {
      var removed := Remove(hours, hour);
      SortAppend(removed, hour);
      InsertRemove(hours, hour);
    } else {
      SortAppend(hours, hour);
      var inserted := Insert(hours, hour);
      assert hour in multiset(inserted);
      RemoveInsert(hours, hour);
    }
  }

  /** The list after a series of toggles, starting from `hours`. */
  function ToggleAll(hours: seq<int>, toggles: seq<int>): seq<int>
    decreases |toggles|
  {
    if |toggles| == 0 then hours else ToggleAll(Toggle(hours, toggles[0]), toggles[1..])
  }

  /** Every list the hour grid can produce from the initial empty selection is sorted,
      duplicate-free, and holds only hours of the grid. */
  lemma {:induction false} ReachableListsSorted(hours: seq<int>, toggles: seq<int>)
    requires StrictlySorted(hours)
    requires forall x :: x in hours ==> 0 <= x < 24
    requires forall x :: x in toggles ==> 0 <= x < 24
    ensures StrictlySorted(ToggleAll(hours, toggles))
    ensures forall x :: x in ToggleAll(hours, toggles) ==> 0 <= x < 24
    decreases |toggles|
  {
    if |toggles| > 0 {
      var next := Toggle(hours, toggles[0]);
      assert toggles[0] in toggles;
      assert forall x :: x in toggles[1..] ==> x in toggles;
      ToggleKeepsStrictlySorted(hours, toggles[0]);
      forall x | x in next
        ensures 0 <= x < 24
      {
        ToggleMembership(hours, toggles[0], x);
      }
      ReachableListsSorted(next, toggles[1..]);
    }
  }
}
