# Dynamic programming and binary-tree search, modelled in Dafny

This project models two Python files of a data-structures and algorithms
collection.

- `dynamic_programming.py` holds the stateless class `DP`. Its eight methods
  each fill a local table in place:
  - `sum`: summation 1..n.
  - `climb_stairs`: stairs taken one or two at a time.
  - `rob`: the house robber.
  - `maxAlternatingSum`: the maximum alternating subsequence sum.
  - `canPartition`: equal-sum partition.
  - `findWaysToTarget`: a table of sign assignments.
  - `coinChange`: the fewest coins.
  - `change`: the number of coin combinations.
- `binary_tree.py` holds the three recursive traversals, a recursive
  depth-first search and a queue-driven breadth-first search.

Each `DP` method becomes an imperative Dafny `method` over an `array` (or an
`array2`) with the source's loops. Each is proved against a recursive
function that states the table's recurrence. Separate lemmas prove what that
recurrence means, against an independent definition of the problem:

- `climb_stairs`: a list of every way to climb; its length is the table entry.
- `rob`: no plan of non-adjacent houses takes more, and one takes exactly
  that much.
- `maxAlternatingSum`: no subsequence has a larger alternating sum, and one
  reaches it.
- `canPartition`: a subset with half the total exists exactly when the table
  says so.
- `findWaysToTarget` and `change`: the assignments or tallies counted, each
  listed once.
- `coinChange`: a tally of that many coins exists and none is smaller.

In `change` and `coinChange`, a combination is a tally: a count per
denomination, so the order of coins does not matter.

A list whose index is out of range, and a `raise ValueError`, become the
`Err` results of `Outcomes.Result`.

The tree is the datatype `BinaryTree.Tree`, where `Nil` stands for `None`.
Traversals return the sequence of values they would print. The breadth-first
search keeps its queue as a `seq` and carries the loop invariant
`BinaryTree.Searching`:

- every queued entry is a node of the tree;
- no dequeued value is the target;
- the dequeued values plus the queued values are the tree's values.

The loop terminates because the queue's total size shrinks by one node per
step.

Modules: `Outcomes`, `Extrema` (`max` and `min`), `Enumeration` (lists with no duplicates), `Subsequences`
(element choices as boolean masks), `Coins` (tallies), `SumToN`,
`ClimbingStairs`, `HouseRobber`, `AlternatingSum`, `Partition`, `TargetSum`,
`CoinChange`, `CoinCombinations`, `BinaryTree`.

## Model

| member | source | states |
|---|---|---|
| SumToN.TriangleClosedForm | dynamic_programming.py:10-14 | the recurrence f(num) = num + f(num - 1) has the closed form num * (num + 1) / 2 |
| SumToN.Sum | dynamic_programming.py:16-23 | `ValueError` exactly when num < 1; otherwise num * (num + 1) / 2, which equals the recurrence; the loop keeps `buffer[i]` equal to the sum 1..i |
| ClimbingStairs.WaysCountsClimbs | dynamic_programming.py:26-40 | the recurrence f(1) = 1, f(2) = 2, f(n) = f(n-1) + f(n-2) is the number of distinct step sequences of ones and twos reaching n; the list of them is complete, sound and has no duplicates |
| ClimbingStairs.ClimbsSound | dynamic_programming.py:28-30 | every listed step sequence uses steps of 1 or 2 and reaches n |
| ClimbingStairs.ClimbsComplete | dynamic_programming.py:28-30 | every sequence of ones and twos reaching n is listed |
| ClimbingStairs.ClimbsNoDup | dynamic_programming.py:28-30 | no sequence is listed twice |
| ClimbingStairs.ClimbSnoc | dynamic_programming.py:39-40 | appending a step of 1 or 2 to a way up n stairs gives a way up n + 1 or n + 2 |
| ClimbingStairs.ClimbStairs | dynamic_programming.py:43-50 | as written: `ValueError` for num < 1, `IndexError` for num == 1 (store into `buffer[1]` of a one-element list), f(num) for num >= 2 |
| ClimbingStairs.ClimbStairsCorrected | dynamic_programming.py:35-50 | `ValueError` for num < 1, and f(num), the number of ways, for every num >= 1 |
| ClimbingStairs.ClimbOneStair | dynamic_programming.py:36 | one stair has exactly one way up, the single step |
| ClimbingStairs.ClimbFiveStairs | dynamic_programming.py:228-230 | five stairs have 8 ways up |
| HouseRobber.LootUpperBound | dynamic_programming.py:55-72 | with non-negative amounts no plan of non-adjacent houses among the first k takes more than the recurrence's value for k |
| HouseRobber.LootWitness | dynamic_programming.py:67-72 | some plan of non-adjacent houses takes exactly the recurrence's value |
| HouseRobber.LootIsBest | dynamic_programming.py:61-62 | the recurrence's value is the maximum over all plans that skip adjacent houses |
| HouseRobber.Rob | dynamic_programming.py:74-87 | 0 for no houses, `nums[0]` for one, else the table recurrence `max(buffer[i-1], buffer[i-2] + nums[i])`; with non-negative amounts that is the best non-adjacent plan |
| HouseRobber.RobSample | dynamic_programming.py:232-234 | the best loot of [2, 7, 9, 3, 1] is 12 |
| AlternatingSum.AltSumSnoc | dynamic_programming.py:92-94 | appending an element adds it at an even position and subtracts it at an odd one |
| AlternatingSum.SumsMonotone | dynamic_programming.py:123-125 | both tables never decrease along the index |
| AlternatingSum.SumsUpperBound | dynamic_programming.py:103-113 | every subsequence of odd length of the first k elements has alternating sum at most `even_sum[k-1]`, and every one of even length at most `odd_sum[k-1]` |
| AlternatingSum.SumsWitness | dynamic_programming.py:103-113 | some subsequence of odd length reaches `even_sum[k-1]`, and one of even length reaches `odd_sum[k-1]` |
| AlternatingSum.OddWitnessStep | dynamic_programming.py:124 | the witness for `even_sum[i]` extends one for `even_sum[i-1]` or `odd_sum[i-1]` |
| AlternatingSum.EvenWitnessStep | dynamic_programming.py:125 | the witness for `odd_sum[i]` extends one for `odd_sum[i-1]` or `even_sum[i-1]` |
| AlternatingSum.SumsAreBest | dynamic_programming.py:95-96 | the larger of the two last entries is the maximum alternating sum over all subsequences |
| AlternatingSum.MaxAlternatingSum | dynamic_programming.py:115-127 | `IndexError` exactly for the empty list (`nums[0]`); otherwise `max(even_sum[-1], odd_sum[-1])`, which is the maximum alternating sum of any subsequence and at least 0 |
| AlternatingSum.MaxAlternatingSumSample | dynamic_programming.py:237-238 | the maximum alternating sum of [6, 2, 1, 2, 4, 5] is 10 |
| Partition.CanReachSound | dynamic_programming.py:146-153 | a true table entry j after k elements comes with a subset of those elements summing to j |
| Partition.CanReachComplete | dynamic_programming.py:146-153 | every subset's sum is marked true |
| Partition.CanReachIffChoice | dynamic_programming.py:147 | entry j is true if and only if some subset of the first k elements sums to j |
| Partition.NoNegativeReach | dynamic_programming.py:152-153 | with non-negative elements no negative sum is reachable, so the descending loop may stop at `num` |
| Partition.ReachZero | dynamic_programming.py:148 | the empty subset sums to 0 |
| Partition.CanPartition | dynamic_programming.py:135-155 | false for an odd total; otherwise the table entry for half the total, computed with the descending inner loop; true if and only if the elements split into two parts of equal sum |
| Partition.PartitionSamples | dynamic_programming.py:240-244 | [1, 5, 11, 5] splits evenly and [3, 1] does not |
| TargetSum.ChoicesMember | dynamic_programming.py:164-172 | a sign assignment is listed for `dp[i][j]` if and only if its walk from column j stays inside the table and ends at the offset |
| TargetSum.ChoicesNoDup | dynamic_programming.py:164-172 | no sign assignment is listed twice |
| TargetSum.ChoicesCount | dynamic_programming.py:164-172 | the table entry `dp[i][j]` is the number of listed sign assignments |
| TargetSum.WaysCountBalanced | dynamic_programming.py:159-174 | the returned entry counts, each once, the sign assignments with signed total 0 whose prefix sums stay within [-target, target] |
| TargetSum.PathsSymmetric | dynamic_programming.py:166-172 | every row of the table is symmetric about the offset column |
| TargetSum.WideBand | dynamic_programming.py:161-174 | when target is at least the plain sum, the band never binds and the result counts all sign assignments with total 0 |
| TargetSum.FillRow | dynamic_programming.py:168-172 | the inner loop fills row i from row i - 1 by the two guarded additions; the rows before it stay filled and the rows after it stay zero |
| TargetSum.Table | dynamic_programming.py:160-172 | every row of the freshly built table holds the table recurrence |
| TargetSum.FindWaysToTarget | dynamic_programming.py:159-174 | as written: `dp[n][target]` of the table offset by target, the count of `WaysCountBalanced` |
| TargetSum.TargetSignsCount | dynamic_programming.py:159-174 | a table offset by the plain sum counts, each once, exactly the sign assignments whose signed total is target, and none when target lies beyond the plain sum |
| TargetSum.FindWaysToTargetCorrected | dynamic_programming.py:159-174 | the number of sign assignments whose signed total is target |
| TargetSum.WaysToTargetMisses | dynamic_programming.py:162-174 | for [1] and target 1 the as-written entry is 0, though `+1` reaches the target and the corrected count is 1 |
| Coins.SizeAtMostValue | dynamic_programming.py:188 | with positive coins a tally never uses more coins than it pays, so `amount + 1` is never a real count |
| CoinChange.Fewest | dynamic_programming.py:188-192 | every table entry stays at most the sentinel `amount + 1` |
| CoinChange.FewestLowerBound | dynamic_programming.py:186-192 | no tally of the first k coins paying x uses fewer coins than the table entry |
| CoinChange.FewestWitness | dynamic_programming.py:186-192 | an entry below the sentinel comes with a tally of exactly that many coins paying x |
| CoinChange.FewestMeaning | dynamic_programming.py:178-185 | the final entry is the sentinel exactly when the amount cannot be paid, and otherwise is the fewest number of coins |
| CoinChange.CoinChange | dynamic_programming.py:186-194 | -1 exactly when the amount cannot be paid with the coins; otherwise the fewest coins that pay it |
| CoinChange.CoinChangeSamples | dynamic_programming.py:247-250 | 8 is paid with 3 coins of [1, 2, 5] and no fewer; 3 cannot be paid with twos |
| CoinCombinations.TalliesMember | dynamic_programming.py:207-211 | a tally is listed for `dp[x]` after k coins if and only if it uses only the first k coins and pays x |
| CoinCombinations.UnusedMember | dynamic_programming.py:209-211 | the tallies carried over from earlier coins are those not using coin k |
| CoinCombinations.ReusedMember | dynamic_programming.py:210-211 | the tallies added by `dp[i - coin]` are those using coin k at least once |
| CoinCombinations.TalliesNoDup | dynamic_programming.py:207-211 | no tally is listed twice, so combinations are counted regardless of order |
| CoinCombinations.TalliesCount | dynamic_programming.py:207-211 | the table entry is the number of listed tallies |
| CoinCombinations.CombinationsCountTallies | dynamic_programming.py:198-213 | the final entry counts, each once, exactly the tallies of all coins paying the amount |
| CoinCombinations.ZeroAmount | dynamic_programming.py:207 | `dp[0]` stays 1 after every coin |
| CoinCombinations.Change | dynamic_programming.py:206-213 | the table built with the ascending inner loop returns the number of coin combinations paying the amount |
| CoinCombinations.ChangeSample | dynamic_programming.py:198-205 | 5 is paid by [1, 2, 5] in 4 combinations |
| BinaryTree.InOrder | binary_tree.py:7-11 | one value per node, with the node's value right after its left subtree's values |
| BinaryTree.PreOrder | binary_tree.py:13-17 | one value per node, with the node's value first |
| BinaryTree.PostOrder | binary_tree.py:19-23 | one value per node, with the node's value last |
| BinaryTree.InOrderElements | binary_tree.py:7-11 | the in-order values are exactly the tree's values, with multiplicity |
| BinaryTree.PreOrderElements | binary_tree.py:13-17 | the pre-order values are exactly the tree's values, with multiplicity |
| BinaryTree.PostOrderElements | binary_tree.py:19-23 | the post-order values are exactly the tree's values, with multiplicity |
| BinaryTree.TraversalsAgree | binary_tree.py:7-31 | the three traversals are permutations of each other, and a value is printed by them exactly when `dfs_search` finds it |
| BinaryTree.DfsSearch | binary_tree.py:26-31 | true exactly when some node holds the target; false on the empty tree |
| BinaryTree.Children | binary_tree.py:44-47 | the children queued after a node are its non-empty children, left before right |
| BinaryTree.ChildrenForest | binary_tree.py:44-47 | those children hold one node fewer than the node, and all its values but its own |
| BinaryTree.QueueSubtrees | binary_tree.py:41-47 | replacing the head of the queue by its children keeps every queued entry a non-empty subtree of the root |
| BinaryTree.AppendChildren | binary_tree.py:44-47 | the two guarded `append` calls queue exactly those children, in that order |
| BinaryTree.SubtreeChildren | binary_tree.py:44-47 | the children of a node of the tree are nodes of the tree |
| BinaryTree.DequeueStep | binary_tree.py:40-47 | one dequeue-and-append step keeps the invariant `Searching` and leaves exactly one node fewer queued |
| BinaryTree.BfsSearch | binary_tree.py:35-49 | returns what `dfs_search` returns on every tree: true exactly when some node holds the target, false on the empty tree |
| BinaryTree.SampleInOrder | binary_tree.py:52-71 | the sample tree prints 4 2 5 1 7 3 0 in order |
| BinaryTree.SamplePreOrder | binary_tree.py:61-73 | the sample tree prints 1 2 4 5 3 7 0 in pre-order |
| BinaryTree.SamplePostOrder | binary_tree.py:61-76 | the sample tree prints 4 5 2 7 0 3 1 in post-order |
| BinaryTree.SampleSearches | binary_tree.py:78-88 | 3 is found in the sample tree and 9 is not |

## Left out

- Printing, `os.system("clear")` and the `__main__` demo blocks are I/O (dynamic_programming.py:218-250, binary_tree.py:57-88). Their sample inputs appear as the sample lemmas.
- Traversals return the sequence of values instead of printing them, with spaces between.
- linked-list.py is not part of this model; it only wires up three nodes and prints.
- `np.sum` in `canPartition` is taken as the mathematical sum of the elements. Numpy integer widths and overflow are not modelled.
- Python integers are unbounded, and so are Dafny's `int`, so no wrap-around is modelled.
- Partition.CanPartition: on the empty list `np.sum` returns the float 0.0, and `[False] * (target_sum + 1)` then raises `TypeError`; the model reads the sum as the integer 0 and returns true there.
- Partition.CanPartition: requires non-negative elements. A negative element makes Python index the list from its end, and that is not modelled.
- TargetSum.FindWaysToTarget: requires target >= 0 and non-negative elements. A negative target builds an empty table and fails on `dp[0][target]`; that error is not modelled.
- TargetSum.FindWaysToTargetCorrected: requires non-negative elements, like the as-written model.
- CoinChange.CoinChange: requires positive coins and amount >= 0. A zero coin leaves the table unchanged in the source, and a negative coin or amount indexes from the list's end; neither case is modelled.
- CoinCombinations.Change: requires positive coins and amount >= 0. A zero coin would double entries on every pass, and negative values index from the list's end; neither case is modelled.
- HouseRobber.Rob: the returned value is modelled for every input, but it is proved to be the best non-adjacent plan only for non-negative amounts. With negative amounts the recurrence is not a maximum over plans.
- BinaryTree.BfsSearch: the `deque` is a sequence; `popleft` drops its head and `append` adds at its end.
- Tree values are integers, compared with `==`; Python would compare any values.
- `TreeNode` objects that share children or form cycles are not modelled; the tree is an acyclic datatype.
- The recursion depth limit of Python is not modelled.

## Findings

| source | as written | input that shows it | evidently intended | confidence | as-written member | corrected member |
|---|---|---|---|---|---|---|
| dynamic_programming.py:46-47 | `buffer = [1]*num` then `buffer[1] = 2`, with no case for num == 1 | num = 1 raises `IndexError` | f(1) = 1, the base case documented at line 36 | not executed | ClimbingStairs.ClimbStairs | ClimbingStairs.ClimbStairsCorrected |
| dynamic_programming.py:161-174 | the table is offset by `target` and `dp[n][target]` is returned: the count of sign assignments with total 0 whose prefix sums stay within [-target, target] | nums = [1], target = 1 returns 0, though `+1` reaches 1 | the number of sign assignments whose signed total is `target` (a table offset by the sum of the elements, returning the entry `target` columns right of the offset) | not executed | TargetSum.WaysToTargetMisses | TargetSum.FindWaysToTargetCorrected |

For the sample call at dynamic_programming.py:237-238, `maxAlternatingSum([6, 2, 1, 2, 4, 5])` returns 10 (6 - 1 + 5). `AlternatingSum.MaxAlternatingSumSample` proves that 10 is the maximum over all subsequences.
