/**
 * `Body.nextGroup` and `Body.nextCategory`: the counters that hand out
 * collision groups and categories.
 *
 * Colliding groups count up from 1 and non-colliding groups down from -1.
 * Categories are the 32-bit word of the bitwise operators: each call
 * shifts the single set bit one place left and returns it, so after 31
 * calls the bit is the sign bit and the 32nd call returns 0.
 */
module Groups {
  import opened Filtering

  /** The category word after `n` calls of `Body.nextCategory`. */
  function NthCategory(n: nat): bv32
  {
    if n == 0 then 1 else NthCategory(n - 1) << 1
  }

  /** The module state of `Body` that the two functions update. */
  class Counters {
    var nextCollidingGroupId: int
    var nextNonCollidingGroupId: int
    var nextCategory: bv32
    /** How many categories have been handed out. */
    ghost var categories: nat

    ghost predicate Valid()
      reads this
    {
      nextCollidingGroupId >= 1 && nextNonCollidingGroupId <= -1 && nextCategory == NthCategory(categories)
    }

    constructor ()
      ensures Valid()
      ensures nextCollidingGroupId == 1 && nextNonCollidingGroupId == -1 && nextCategory == 1 && categories == 0
    {
      nextCollidingGroupId := 1;
      nextNonCollidingGroupId := -1;
      nextCategory := 1;
      categories := 0;
    }

    /**
     * `Body.nextGroup`: a fresh negative group for bodies that must not
     * collide with each other, otherwise a fresh positive group.
     */
    method NextGroup(isNonColliding: bool) returns (group: int)
      requires Valid()
      modifies this
      ensures Valid()
      ensures isNonColliding ==>
        group == old(nextNonCollidingGroupId) && group < 0 &&
        nextNonCollidingGroupId == group - 1 && nextCollidingGroupId == old(nextCollidingGroupId)
      ensures !isNonColliding ==>
        group == old(nextCollidingGroupId) && group > 0 &&
        nextCollidingGroupId == group + 1 && nextNonCollidingGroupId == old(nextNonCollidingGroupId)
      ensures nextCategory == old(nextCategory) && categories == old(categories)
    {
      if isNonColliding {
        group := nextNonCollidingGroupId;
        nextNonCollidingGroupId := nextNonCollidingGroupId - 1;
      } else {
        group := nextCollidingGroupId;
        nextCollidingGroupId := nextCollidingGroupId + 1;
      }
    }

    /** `Body.nextCategory`: the next category bit. */
    method NextCategory() returns (category: bv32)
      requires Valid()
      modifies this
      ensures Valid()
      ensures categories == old(categories) + 1 && category == NthCategory(categories) && nextCategory == category
      ensures nextCollidingGroupId == old(nextCollidingGroupId)
      ensures nextNonCollidingGroupId == old(nextNonCollidingGroupId)
    {
      assert NthCategory(categories + 1) == nextCategory << 1;
      nextCategory := nextCategory << 1;
      categories := categories + 1;
      category := nextCategory;
    }
  }

  /** The category after `n < 32` calls is the single bit `n`. */
  lemma {:induction false} NthCategoryIsBit(n: nat)
    requires n < 32
    ensures NthCategory(n) == (1 as bv32) << n
  {
    if n > 0 {
      NthCategoryIsBit(n - 1);
      ShiftOnce(n - 1);
    }
  }

  /** Shifting bit `k` one place left gives bit `k + 1`. */
  lemma {:induction false} ShiftOnce(k: nat)
    requires k < 31
    ensures ((1 as bv32) << k) << 1 == (1 as bv32) << (k + 1)
  {
  }

  /** Two different bits of the word are non-zero and share nothing. */
  lemma {:induction false} BitsDisjoint(i: nat, j: nat)
    requires i < 32 && j < 32 && i != j
    ensures (1 as bv32) << i != 0 && ((1 as bv32) << i) & ((1 as bv32) << j) == 0
  {
  }

  /** From the 32nd call on, the bit has been shifted out and the category is 0. */
  lemma {:induction false} CategoriesRunOut(n: nat)
    requires n >= 32
    ensures NthCategory(n) == 0
  {
    if n == 32 {
      NthCategoryIsBit(31);
    } else {
      CategoriesRunOut(n - 1);
    }
  }

  /** The first 31 calls hand out distinct, non-empty categories that share no bit. */
  lemma {:induction false} CategoriesDisjoint(i: nat, j: nat)
    requires i < 32 && j < 32 && i != j
    ensures NthCategory(i) != 0 && NthCategory(i) & NthCategory(j) == 0
  {
    NthCategoryIsBit(i);
    NthCategoryIsBit(j);
    BitsDisjoint(i, j);
  }

  /**
   * Ungrouped bodies that each accept only their own category, handed out
   * by different calls, never collide; bodies of the same handed-out
   * category do.
   */
  lemma {:induction false} OwnCategoryFilters(i: nat, j: nat)
    requires i < 32 && j < 32
    ensures CanCollide(Filter(NthCategory(i), NthCategory(i), 0), Filter(NthCategory(j), NthCategory(j), 0)) <==> i == j
  {
    NthCategoryIsBit(i);
    NthCategoryIsBit(j);
    if i != j {
      BitsDisjoint(i, j);
    } else {
      BitsDisjoint(i, if i == 0 then 1 else 0);
    }
  }

  /** Bodies given the same non-colliding group never collide, and the same colliding group always do. */
  lemma {:induction false} SharedGroups(a: Filter, b: Filter)
    requires a.group == b.group && a.group != 0
    ensures CanCollide(a, b) <==> a.group > 0
  {
  }
}
