/** Per-group sequential numbering.  Both the payout orders of a group's
    memberships and the cycle numbers of a group's cycles are handed out as
    "how many rows of this group exist already, plus one".  Here a table is
    seen through two columns: `keys` (the group of each row) and `nums` (the
    number given to each row). */
module Numbering {

  /** Number of rows whose key is `k`. */
  function Count(keys: seq<nat>, k: nat): (n: nat)
    ensures n <= |keys|
    ensures n == 0 <==> k !in keys
  {
    if keys == [] then 0
    else
      var init := keys[..|keys| - 1];
      assert keys == init + [keys[|keys| - 1]];
      Count(init, k) + (if keys[|keys| - 1] == k then 1 else 0)
  }

  /** Every row's number is one more than the number of earlier rows with its key. */
  ghost predicate Numbered(keys: seq<nat>, nums: seq<int>)
    decreases |keys|
  {
    |keys| == |nums| &&
    (keys == [] ||
     (Numbered(keys[..|keys| - 1], nums[..|nums| - 1]) &&
      nums[|nums| - 1] == Count(keys[..|keys| - 1], keys[|keys| - 1]) + 1))
  }

  lemma CountAppend(keys: seq<nat>, k: nat, j: nat)
    ensures Count(keys + [k], j) == Count(keys, j) + (if k == j then 1 else 0)
  {
    assert (keys + [k])[..|keys|] == keys;
  }

  /** Appending a row numbered "count so far + 1" keeps the table numbered. */
  lemma NumberedAppend(keys: seq<nat>, nums: seq<int>, k: nat)
    requires Numbered(keys, nums)
    ensures Numbered(keys + [k], nums + [Count(keys, k) + 1])
  {
    assert (keys + [k])[..|keys|] == keys;
    assert (nums + [Count(keys, k) + 1])[..|nums|] == nums;
  }

  /** Counting over a longer prefix never gives less, and strictly more once a row with the key is passed. */
  lemma {:induction false} CountPrefixMono(keys: seq<nat>, i: nat, j: nat, k: nat)
    requires i <= j <= |keys|
    ensures Count(keys[..i], k) <= Count(keys[..j], k)
    ensures i < j && keys[i] == k ==> Count(keys[..i], k) < Count(keys[..j], k)
    decreases j
  {
    if i < j {
      CountPrefixMono(keys, i, j - 1, k);
      assert keys[..j][..j - 1] == keys[..j - 1];
      assert keys[..j][j - 1] == keys[j - 1];
      if i == j - 1 {
        assert Count(keys[..j], k) == Count(keys[..i], k) + (if keys[i] == k then 1 else 0);
      }
    }
  }

  /** The recursive definition, read at one row. */
  lemma {:induction false} NumberedAt(keys: seq<nat>, nums: seq<int>, i: nat)
    requires Numbered(keys, nums) && i < |keys|
    ensures nums[i] == Count(keys[..i], keys[i]) + 1
    decreases |keys|
  {
    var n := |keys| - 1;
    if i < n {
      NumberedAt(keys[..n], nums[..n], i);
      assert keys[..n][..i] == keys[..i];
    }
  }

  /** A row's number lies between 1 and the count of rows with its key. */
  lemma NumberedRange(keys: seq<nat>, nums: seq<int>, i: nat)
    requires Numbered(keys, nums) && i < |keys|
    ensures 1 <= nums[i] <= Count(keys, keys[i])
  {
    NumberedAt(keys, nums, i);
    CountPrefixMono(keys, i, |keys|, keys[i]);
    assert keys[..|keys|] == keys;
  }

  /** Two rows with the same key never share a number; the later one has the larger number. */
  lemma NumberedIncreasing(keys: seq<nat>, nums: seq<int>, i: nat, j: nat)
    requires Numbered(keys, nums) && i < j < |keys| && keys[i] == keys[j]
    ensures nums[i] < nums[j]
  {
    NumberedAt(keys, nums, i);
    NumberedAt(keys, nums, j);
    CountPrefixMono(keys, i, j, keys[i]);
  }

  /** Every number from 1 to the count of rows with key `k` is given to some row with key `k`. */
  lemma {:induction false} NumberedCovers(keys: seq<nat>, nums: seq<int>, k: nat, n: int) returns (i: nat)
    requires Numbered(keys, nums) && 1 <= n <= Count(keys, k)
    ensures i < |keys| && keys[i] == k && nums[i] == n
    decreases |keys|
  {
    var last := |keys| - 1;
    var init := keys[..last];
    assert keys == init + [keys[last]];
    if keys[last] == k && n == Count(init, k) + 1 {
      i := last;
    } else {
      i := NumberedCovers(init, nums[..last], k, n);
    }
  }
}
