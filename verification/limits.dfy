/** `ORDER BY key LIMIT k` as a set: any first `k` rows, with ties cut anywhere. */
module Limits {
  import opened Prelude

  /** `chosen` is a possible first `k` of `all` by ascending `key`. */
  ghost predicate Leads(all: set<nat>, key: nat -> int, k: nat, chosen: set<nat>) {
    && chosen <= all
    && |chosen| == Min(k, |all|)
    && forall c, o :: c in chosen && o in all - chosen ==> key(c) <= key(o)
  }

  lemma {:induction false} Least(all: set<nat>, key: nat -> int) returns (m: nat)
    requires all != {}
    ensures m in all && forall o :: o in all ==> key(m) <= key(o)
    decreases |all|
  {
    var x :| x in all;
    m := x;
    var rest := all - {x};
    if rest != {} {
      var y := Least(rest, key);
      m := if key(x) <= key(y) then x else y;
      forall o | o in all ensures key(m) <= key(o) {
        if o != x {
          assert o in rest;
        }
      }
    }
  }

  /** Some choice always exists. */
  lemma {:induction false} LeadsExists(all: set<nat>, key: nat -> int, k: nat) returns (chosen: set<nat>)
    ensures Leads(all, key, k, chosen)
    decreases k
  {
    if k == 0 || all == {} {
      chosen := {};
    } else {
      var m := Least(all, key);
      var rest := LeadsExists(all - {m}, key, k - 1);
      chosen := rest + {m};
      assert all - chosen == (all - {m}) - rest;
      assert |all| == |all - {m}| + 1;
      forall c, o | c in chosen && o in all - chosen ensures key(c) <= key(o) {
      }
    }
  }
}
