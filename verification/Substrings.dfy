/** How many times a log line contains a pattern. */
module Substrings {
  import opened Occurrences

  /** Places where the needle occurs, no two of them overlapping. */
  ghost predicate IsPacking(haystack: string, needle: string, places: set<int>) {
    (forall i :: i in places ==> Occurs(haystack, needle, i))
    && (forall i, j :: i in places && j in places && i < j ==> i + |needle| <= j)
  }

  ghost function Before(places: set<int>, pos: int): set<int> {
    set i | i in places && i < pos
  }

  lemma AtMostOne<T>(places: set<T>)
    requires forall i, j :: i in places && j in places ==> i == j
    ensures |places| <= 1
  {
    if |places| > 0 {
      var i :| i in places;
      assert places == {i};
    }
  }

  /** A packing has at most one place in any window as long as the needle. */
  lemma WindowHoldsOne(haystack: string, needle: string, places: set<int>, pos: int)
    requires IsPacking(haystack, needle, places)
    ensures |Before(places, pos + |needle|)| <= |Before(places, pos)| + 1
  {
    var window := set i | i in places && pos <= i < pos + |needle|;
    OneInWindow(haystack, needle, places, pos);
    AtMostOne(window);
    assert Before(places, pos + |needle|) == Before(places, pos) + window;
  }

  lemma OneInWindow(haystack: string, needle: string, places: set<int>, pos: int)
    requires IsPacking(haystack, needle, places)
    ensures forall i, j ::
      i in places && j in places && pos <= i < pos + |needle| && pos <= j < pos + |needle| ==> i == j
  {
    hide Occurs;
  }

  lemma NothingHere(haystack: string, needle: string, places: set<int>, pos: int)
    requires IsPacking(haystack, needle, places) && !Occurs(haystack, needle, pos)
    ensures Before(places, pos + 1) == Before(places, pos)
  {
  }

  /** No packing has more than `count` places before `pos`. */
  ghost predicate Bounded(haystack: string, needle: string, pos: int, count: int) {
    forall places :: IsPacking(haystack, needle, places) ==> |Before(places, pos)| <= count
  }

  lemma Hit(haystack: string, needle: string, pos: int, count: int)
    requires Bounded(haystack, needle, pos, count)
    ensures Bounded(haystack, needle, pos + |needle|, count + 1)
  {
    hide IsPacking, Before;
    forall places | IsPacking(haystack, needle, places) ensures |Before(places, pos + |needle|)| <= count + 1 {
      WindowHoldsOne(haystack, needle, places, pos);
    }
  }

  lemma Miss(haystack: string, needle: string, pos: int, count: int)
    requires Bounded(haystack, needle, pos, count) && !Occurs(haystack, needle, pos)
    ensures Bounded(haystack, needle, pos + 1, count)
  {
    hide IsPacking, Before;
    forall places | IsPacking(haystack, needle, places) ensures |Before(places, pos + 1)| <= count {
      NothingHere(haystack, needle, places, pos);
    }
  }

  lemma PackOne(haystack: string, needle: string, picked: set<int>, pos: int)
    requires IsPacking(haystack, needle, picked) && Occurs(haystack, needle, pos) && needle != ""
    requires forall i :: i in picked ==> i + |needle| <= pos
    ensures IsPacking(haystack, needle, picked + {pos}) && |picked + {pos}| == |picked| + 1
  {
    hide Occurs;
  }

  lemma Start(haystack: string, needle: string)
    ensures Bounded(haystack, needle, 0, 0) && IsPacking(haystack, needle, {})
  {
    forall places | IsPacking(haystack, needle, places) ensures |Before(places, 0)| <= 0 {
      assert Before(places, 0) == {};
    }
  }

  lemma Finish(haystack: string, needle: string, pos: int, count: int)
    requires Bounded(haystack, needle, pos, count) && pos + |needle| > |haystack|
    ensures forall places :: IsPacking(haystack, needle, places) ==> |places| <= count
  {
    forall places | IsPacking(haystack, needle, places) ensures |places| <= count {
      assert Before(places, pos) == places;
    }
  }

  /** `count_substrings`: the leftmost non-overlapping matches, of which no other choice has more. */
  method CountSubstrings(haystack: string, needle: string) returns (count: nat, ghost picked: set<int>)
    ensures needle == "" ==> count == 0
    ensures needle != "" ==> IsPacking(haystack, needle, picked) && |picked| == count
    ensures needle != "" ==> forall places :: IsPacking(haystack, needle, places) ==> |places| <= count
  {
    hide IsPacking, Bounded;
    count, picked := 0, {};
    if needle == "" {
      return;
    }
    Start(haystack, needle);
    var pos := 0;
    while pos + |needle| <= |haystack|
      invariant 0 <= pos
      invariant IsPacking(haystack, needle, picked) && |picked| == count
      invariant forall i :: i in picked ==> i + |needle| <= pos
      invariant Bounded(haystack, needle, pos, count)
    {
      if haystack[pos..pos + |needle|] == needle {
        Hit(haystack, needle, pos, count);
        PackOne(haystack, needle, picked, pos);
        count, picked, pos := count + 1, picked + {pos}, pos + |needle|;
      } else {
        Miss(haystack, needle, pos, count);
        pos := pos + 1;
      }
    }
    Finish(haystack, needle, pos, count);
  }
}
