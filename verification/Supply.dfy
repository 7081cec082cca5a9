/** The identifiers a transaction draws on. */
module Supply {
  import opened Wrappers

  /** At least this many identifiers are left; all of them are valid, unused and different. */
  predicate Plenty(left: seq<int>, used: set<int>, n: nat) {
    && |left| >= n
    && (forall i, j :: 0 <= i < j < |left| ==> left[i] != left[j])
    && (forall i :: 0 <= i < |left| ==> left[i] !in used && 0 < left[i] < 0x8000_0000_0000_0000)
  }

  lemma PlentyAfterOne(left: seq<int>, used: set<int>, n: nat)
    requires Plenty(left, used, n + 1)
    ensures left != [] && left[0] !in used && 0 < left[0] < 0x8000_0000_0000_0000
    ensures Plenty(left[1..], used + {left[0]}, n)
  {
  }

  lemma PlentyForFewer(left: seq<int>, used: set<int>, n: nat, fewer: nat)
    requires Plenty(left, used, n) && fewer <= n
    ensures Plenty(left, used, fewer)
  {
  }

  /** Identifiers still to be handed out; none left stands for a failed allocation. */
  class Identifiers {
    var left: seq<int>

    constructor (left: seq<int>)
      ensures this.left == left
    {
      this.left := left;
    }

    method Next() returns (id: Option<int>)
      modifies this
      ensures if old(left) == [] then id.None? && left == [] else id == Some(old(left)[0]) && left == old(left)[1..]
    {
      if left == [] { return None; }
      id := Some(left[0]);
      left := left[1..];
    }
  }
}
