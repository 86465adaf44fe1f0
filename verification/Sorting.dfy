/** Ascending enumeration of a set of numbers, the job sort.Slice and sort_unstable do for map keys. */
module Sorting {

  predicate Ascending(keys: seq<nat>) {
    forall i, j :: 0 <= i < j < |keys| ==> keys[i] < keys[j]
  }

  ghost function Elements(keys: seq<nat>): set<nat> {
    set k | k in keys
  }

  /** Where `k` goes: everything before it is smaller, everything from there on is larger. */
  method Position(keys: seq<nat>, k: nat) returns (i: nat)
    requires Ascending(keys) && k !in keys
    ensures i <= |keys|
    ensures forall j :: 0 <= j < i ==> keys[j] < k
    ensures forall j :: i <= j < |keys| ==> k < keys[j]
  {
    i := 0;
    while i < |keys| && keys[i] < k
      invariant i <= |keys|
      invariant forall j :: 0 <= j < i ==> keys[j] < k
    {
      i := i + 1;
    }
  }

  method SortKeys(s: set<nat>) returns (keys: seq<nat>)
    ensures Ascending(keys)
    ensures Elements(keys) == s
  {
    keys := [];
    var todo := s;
    while todo != {}
      invariant todo <= s
      invariant Ascending(keys)
      invariant Elements(keys) == s - todo
      decreases todo
    {
      var k :| k in todo;
      assert k !in Elements(keys);
      var i := Position(keys, k);
      var longer := keys[..i] + [k] + keys[i..];
      assert Elements(longer) == Elements(keys) + {k} by {
        assert keys == keys[..i] + keys[i..];
        assert longer[i] == k;
        forall x | x in keys
          ensures x in longer
        {
        }
      }
      keys, todo := longer, todo - {k};
    }
  }
}
