/**
 Some predicates state many facts about large structures. They are kept folded behind a
 quantifier over numbers that are `Open`, which all are, so that proofs that only pass such a
 predicate on are not slowed down by what it says; the others mention `Open(0)` to look inside.
 */
module Folding {
  ghost predicate Open(n: nat) {
    n == n
  }
}
