# Association rules for a service-booking platform, in Dafny

The script `ARMUT_ARL_PROJE.py` turns a table of purchases into association rules:

1. Each purchase record (UserId, ServiceId, CategoryId, CreateDate) gets a service key `ServiceId_CategoryId`. The same ServiceId means a different service in each category.
2. Each record gets a basket key `UserId_YYYY-MM`. A basket is everything one customer bought in one calendar month.
3. The records are grouped by (BasketID, Service) and counted. The counts are pivoted into a basket × service table whose cells record presence (0 or 1).
4. `mlxtend`'s `apriori` finds the itemsets that appear in at least 1 % of baskets. `association_rules` splits them into rules and keeps those with support of at least 1 %.
5. The rules are sorted by lift, highest first.

This project models steps 1–5 as pure functions over immutable datatypes and proves what each step promises. The library calls in step 4 are modelled by their meaning, not by their algorithm. Support is the number of baskets that hold every item of an itemset. The result of `apriori` is the map from each frequent itemset to that count. The rules are every split of a frequent itemset into antecedent and consequent.

Modules, one per file, in pipeline order:

- `Wrappers`: `Option`.
- `Decimal`: `str(int)` and its inverse parser.
- `Keys`: the service and basket keys.
- `Labels`: Python's string order and sorted label lists.
- `Pivot`: records, derived columns and the presence table.
- `Support`: support counts and `apriori`.
- `Rules`: `association_rules` and the lift sort.
- `Pipeline`: the script from end to end.
- `Examples`: the script's example customer 7256.

Three modelling choices:

- **Support threshold.** The test "support ≥ 0.01" is written exactly as `total > 0 && 100 * count >= total`, which is the real-number test count / total ≥ 1/100. The script compares doubles: count / total rounded, against the literal `0.01`, the double just above 1/100. Rounding is monotone, so every count that passes the exact test passes the script's. The converse needs a ratio below 1/100, which is at most 1/100 − 1/(100 · total), to stay below the rounding midpoint under 0.01. That holds when 1/(100 · total) exceeds the margin between 1/100 and that midpoint (half an ulp of 0.01, 2⁻⁶⁰, minus 0.01 − 1/100: about 6.6 · 10⁻¹⁹), so the two tests agree for every total below 2^53. With no baskets, 0/0 is NaN and the comparison is false.
- **Lift.** Lift is mlxtend's formula, confidence over the consequent's support, in exact real arithmetic. Rules are compared by cross-multiplying support counts, which orders them as their real lifts do: the common basket total cancels out.
- **Table labels.** pandas' `groupby` sorts its keys, so the table's row and column labels are modelled as strictly ascending sequences under Python's string order.

## Model

| member | source | states |
|---|---|---|
| Decimal.NatToString | ARMUT_ARL_PROJE.py:39 | the decimal text of a natural number is a non-empty digit string with at least two digits exactly from 10 up, and starts with `0` only for zero itself |
| Decimal.NatToStringRoundTrip | ARMUT_ARL_PROJE.py:39 | reading back the decimal text of a natural number gives that number |
| Decimal.IntToStringRoundTrip | ARMUT_ARL_PROJE.py:39 | reading back `str(i)` for any integer, negative ones included, gives `i` |
| Decimal.IntToStringInjective | ARMUT_ARL_PROJE.py:39 | two integers have the same `str` text exactly when they are equal |
| Decimal.IntToString | ARMUT_ARL_PROJE.py:39 | the text of an integer is non-empty, has no `_`, and starts with `-` exactly when the integer is negative |
| Keys.SplitKey | ARMUT_ARL_PROJE.py:39 | splitting at the first `_` gives parts that rejoin to the key, with no `_` in the head; there is no split exactly when the key has no `_` |
| Keys.SplitJoined | ARMUT_ARL_PROJE.py:39 | a key joined from an underscore-free head and any tail splits back into exactly that head and tail |
| Keys.ServiceKey | ARMUT_ARL_PROJE.py:39 | the service key splits at its first `_` into the text of ServiceId and the text of CategoryId |
| Keys.ServiceKeyRoundTrip | ARMUT_ARL_PROJE.py:39 | parsing a service key recovers (ServiceId, CategoryId) |
| Keys.ServiceKeyInjective | ARMUT_ARL_PROJE.py:19-21 | two service keys are equal exactly when both ServiceId and CategoryId are equal |
| Keys.SameServiceOtherCategory | ARMUT_ARL_PROJE.py:19-21 | one ServiceId under two different categories gives two different services |
| Keys.YearMonth | ARMUT_ARL_PROJE.py:49 | `CreateDate[:7]` is a prefix of CreateDate of length at most 7; it is exactly 7 long, or all of CreateDate when that is shorter |
| Keys.YearMonthIgnoresRest | ARMUT_ARL_PROJE.py:44-49 | text after the first 7 characters (day and time) does not change the year-month |
| Keys.YearMonthIdempotent | ARMUT_ARL_PROJE.py:49 | truncating a second time changes nothing |
| Keys.BasketId | ARMUT_ARL_PROJE.py:50 | the basket key splits at its first `_` into the text of UserId and the year-month |
| Keys.BasketIdInjective | ARMUT_ARL_PROJE.py:44-50 | two records share a BasketID exactly when they share UserId and year-month |
| Keys.DistinctMonthsDistinctBaskets | ARMUT_ARL_PROJE.py:44-50 | one user in two different year-months gets two different BasketIDs |
| Keys.Customer7256TwoBaskets | ARMUT_ARL_PROJE.py:45-46 | customer 7256's purchases at any time in August 2017 and at any time in October 2017 get the baskets `7256_2017-08` and `7256_2017-10`, which differ |
| Labels.StrLess | ARMUT_ARL_PROJE.py:68 | Python's `<` on strings, which `groupby` sorts by: past the longest common prefix, `a` sorts first exactly when it has run out while `b` goes on, or has the smaller character |
| Labels.CommonPrefixLength | ARMUT_ARL_PROJE.py:68 | the longest common prefix: both strings agree up to it, and past it one has ended or they differ |
| Labels.StrLessIrreflexive | ARMUT_ARL_PROJE.py:68 | no label sorts before itself |
| Labels.StrLessTransitive | ARMUT_ARL_PROJE.py:68 | the label order is transitive |
| Labels.StrLessTotal | ARMUT_ARL_PROJE.py:68 | any two different labels are ordered one way or the other |
| Labels.InsertLabel | ARMUT_ARL_PROJE.py:68 | inserting a label into an ascending list without repeats keeps it so, and adds exactly that label |
| Labels.SortedLabels | ARMUT_ARL_PROJE.py:68 | the group labels are the distinct values of a column, strictly ascending |
| Labels.StrictlySortedUnique | ARMUT_ARL_PROJE.py:68 | two strictly ascending lists with the same members are equal |
| Pivot.Prepare | ARMUT_ARL_PROJE.py:39-50 | the derived columns of a record: Service splits back into the texts of ServiceId and CategoryId; YearMonthDate is the prefix of CreateDate of length 7, or all of it when shorter; BasketID splits back into the text of UserId and YearMonthDate |
| Pivot.SameBasketIffSameUserAndMonth | ARMUT_ARL_PROJE.py:44-50 | two prepared records are in one basket exactly when they share user and year-month |
| Pivot.SameServiceIffSameIds | ARMUT_ARL_PROJE.py:19-21 | two prepared records are one service exactly when they share ServiceId and CategoryId |
| Pivot.GroupCount | ARMUT_ARL_PROJE.py:68 | the size of group (b, s) is the number of records with that key, and is positive exactly when some record has it |
| Pivot.Presence | ARMUT_ARL_PROJE.py:68 | the cell for a count is 0 or 1, and is truthy exactly when the count is positive |
| Pivot.PivotTable | ARMUT_ARL_PROJE.py:68 | one row per distinct BasketID and one column per distinct Service, each ascending and nothing else; every cell is 0 or 1, and is 1 exactly when some record has that (BasketID, Service) |
| Pivot.PresenceTableUnique | ARMUT_ARL_PROJE.py:68 | the description of the table fixes it completely |
| Pivot.PivotDependsOnlyOnGroups | ARMUT_ARL_PROJE.py:68 | two record lists with the same (BasketID, Service) groups give the same table |
| Pivot.PivotIgnoresOrderAndRepeats | ARMUT_ARL_PROJE.py:68 | reordering or repeating records leaves the table unchanged |
| Pivot.RepeatPurchaseCollapses | ARMUT_ARL_PROJE.py:68 | a second purchase of a service in the same basket leaves the table unchanged: cells are presence, not counts |
| Support.PresenceBasketItems | ARMUT_ARL_PROJE.py:68-75 | in any presence table of the records, the items of a basket row are exactly the services of the records with that row's BasketID |
| Support.PivotBasketItems | ARMUT_ARL_PROJE.py:68-75 | the baskets `apriori` reads from the script's pivot table are the user-months: each row holds exactly the services bought in that BasketID |
| Support.SupportCount | ARMUT_ARL_PROJE.py:75 | the support count is the number of baskets holding every item of the itemset, and is at most the number of baskets |
| Support.MeetsMinSupport | ARMUT_ARL_PROJE.py:75-76 | a count meets the 0.01 threshold exactly when there are baskets and the count, as a real number, is at least 0.01 times the basket total |
| Support.SupportAntiMonotone | ARMUT_ARL_PROJE.py:75 | a larger itemset has a support count no greater than any itemset it contains |
| Support.FrequentItemsets | ARMUT_ARL_PROJE.py:75 | an itemset is returned exactly when it is a non-empty set of columns whose support meets 0.01, and it is returned with its support count |
| Support.FrequentItemsetsDownwardClosed | ARMUT_ARL_PROJE.py:75 | every non-empty part of a frequent itemset is frequent too, with a support count at least as large |
| Support.NoBasketsNoItemsets | ARMUT_ARL_PROJE.py:75 | with no baskets no itemset is frequent, since a support of 0/0 fails the threshold |
| Rules.CandidateRules | ARMUT_ARL_PROJE.py:76 | each rule splits a frequent itemset into non-empty disjoint antecedent and consequent and carries the three support counts; every such split is a rule |
| Rules.AssociationRules | ARMUT_ARL_PROJE.py:76 | a rule is kept exactly when it is a candidate whose support meets 0.01 |
| Rules.SupportFilterKeepsAll | ARMUT_ARL_PROJE.py:75-76 | when every itemset handed in already meets the support threshold, as `apriori`'s output does, the support filter of `association_rules` drops no rule |
| Rules.RuleMetricBounds | ARMUT_ARL_PROJE.py:75-76 | every rule kept from itemsets with their support counts meets the support threshold; its support is positive and at most the support of either side, so confidence is in (0, 1] and lift is defined |
| Rules.LiftScales | ARMUT_ARL_PROJE.py:81 | the lift of a rule over `total` baskets is `total` times its count over the product of its sides' counts |
| Rules.LiftAtLeast | ARMUT_ARL_PROJE.py:81 | for rules with positive side counts, the cross-multiplied comparison holds exactly when the first rule's count over the product of its sides' counts is at least the second's |
| Rules.LiftOrder | ARMUT_ARL_PROJE.py:81 | for any positive basket total, the comparison holds exactly when the first rule's lift is at least the second's |
| Rules.LiftAtLeastTransitive | ARMUT_ARL_PROJE.py:81 | comparing lifts is transitive |
| Rules.InsertByLift | ARMUT_ARL_PROJE.py:81 | inserting a rule into a lift-descending list gives a lift-descending list that holds the old rules plus that one |
| Rules.SortByLift | ARMUT_ARL_PROJE.py:81 | `sort_values(by='lift', ascending=False)` gives a permutation of the rules, each with defined lift, with lift non-increasing from front to back |
| Pipeline.RuleTable | ARMUT_ARL_PROJE.py:76 | the rules table holds each rule of the set exactly once |
| Pipeline.SortedRules | ARMUT_ARL_PROJE.py:39-81 | stops (`None`) exactly when `apriori` finds no frequent itemset; otherwise `sorted_rules` holds exactly the rules of `association_rules`, each once, every one with defined lift (positive side counts) and lift non-increasing, and the support filter keeps every split of every frequent itemset |
| Examples.Customer7256Keys | ARMUT_ARL_PROJE.py:45-46 | customer 7256's four records, each at its own time in August or October 2017, fall into the groups (Aug, 9_4), (Aug, 46_4), (Oct, 9_4) and (Oct, 38_4) |
| Examples.CustomerGroupsPresent | ARMUT_ARL_PROJE.py:45-46 | those four groups are present, and (Aug, 38_4) and (Oct, 46_4) are not |
| Examples.CustomerRows | ARMUT_ARL_PROJE.py:45-46 | a table for those groups has exactly the rows `7256_2017-08`, `7256_2017-10`, in that order |
| Examples.CustomerCols | ARMUT_ARL_PROJE.py:45-46 | a table for those groups has exactly the columns `38_4`, `46_4`, `9_4`, in that order |
| Examples.CustomerCells | ARMUT_ARL_PROJE.py:45-46 | with those labels the cells are `[[0,1,1],[1,0,1]]`: August holds 46_4 and 9_4, October holds 38_4 and 9_4 |
| Examples.CustomerTable | ARMUT_ARL_PROJE.py:45-46 | any records with those four groups pivot to that two-row, three-column table |
| Examples.Customer7256Table | ARMUT_ARL_PROJE.py:45-46 | customer 7256's own records pivot to that table |

## Left out

- Reading `armut_data.csv` (line 35) and printing the table and the rules (lines 69 and 82). These are I/O. `Pipeline.SortedRules` takes the records as a parameter and returns the sorted rules.
- The algorithms inside `mlxtend`'s `apriori` and `association_rules` (line 31). The library is not part of this model. Both calls are modelled by what their results mean: support counts, the threshold, and the split into rules.
- Confidence, lift and the other rule metrics as floating-point numbers. Rules carry integer support counts over the common basket total. Lift is stated in exact real arithmetic (`Rules.Lift`) and compared exactly by cross-multiplying.
- Rules.SortByLift: promises no order among rules of equal lift, because pandas' default sort is not stable. The order it states is that of exact lift; the script's lift is a double computed in several rounded steps, so two rules whose exact lifts are equal or very close may come out in either order.
- Pipeline.RuleTable: the order of rows in the rules table is left open. Only the lift order after sorting is stated.
- The recommender function mentioned at line 79. It exists only as a comment.
- pandas dtypes. `astype(str)` on an integer column is modelled as Python's `str(int)`. `astype(bool)` is modelled as "cell is non-zero". `fillna(0)` is modelled as "a missing group counts 0". Missing values (NaN) in the input columns are not modelled: the record fields are plain integers and strings.
- `CreateDate` is kept as text and truncated to its first 7 characters, exactly as the script does. The model does not parse dates, so a date written in another format gets whatever 7-character prefix it has.
- The minimum-support threshold is the constant 0.01 of lines 75–76, not a parameter.
- The rules' other `association_rules` columns (leverage, conviction, zhangs_metric and so on) are not modelled. Only support, confidence and lift are.
- Rules.CandidateRules: requires that every non-empty part of a frequent itemset is in its input map. `association_rules` looks up those supports and fails when one is missing. `apriori`'s output always satisfies this (`Support.FrequentItemsetsDownwardClosed`).
- Rules.AssociationRules: returns the empty set for an empty itemset map, where `association_rules` raises ValueError because the frequent-itemset frame is empty. The script then stops at line 76. `Pipeline.SortedRules` models that stop: it returns `None` exactly when `apriori` finds no frequent itemset. That happens with no records at all, or when no service reaches 1 % of the baskets.
- Support.MeetsMinSupport: is the exact test count / total ≥ 1/100. It agrees with the script's floating-point test for every basket total below 2^53, and may disagree above it (see "Support threshold" above).
