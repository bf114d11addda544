/** Intrusive lists of include/bastypeinc/list.h are sequences, front first. */
module Lists {

  ghost predicate NoDup(l: seq<nat>) {
    forall i, j :: 0 <= i < j < |l| ==> l[i] != l[j]
  }

  /** list_del of the i-th element. */
  function Without(l: seq<nat>, i: nat): (r: seq<nat>)
    requires i < |l|
    ensures |r| == |l| - 1
  {
    l[..i] + l[i + 1..]
  }

  /** The others stay in order. */
  lemma WithoutAt(l: seq<nat>, i: nat, j: nat)
    requires i < |l| && j < |l| - 1
    ensures Without(l, i)[j] == l[if j < i then j else j + 1]
  {
  }

  lemma WithoutMembers(l: seq<nat>, i: nat)
    requires NoDup(l) && i < |l|
    ensures NoDup(Without(l, i))
    ensures forall x :: x in Without(l, i) <==> x in l && x != l[i]
  {
    var r := Without(l, i);
    forall x ensures x in r <==> x in l && x != l[i] {
      if x in l && x != l[i] {
        var j :| 0 <= j < |l| && l[j] == x;
        if j < i {
          assert r[j] == x;
        } else {
          assert r[j - 1] == x;
        }
      }
      if x in r {
        var j :| 0 <= j < |r| && r[j] == x;
        assert x == if j < i then l[j] else l[j + 1];
      }
    }
  }

  /** Where x first occurs, |l| when it does not. */
  function IndexOf(l: seq<nat>, x: nat): (i: nat)
    ensures i <= |l| && (i < |l| <==> x in l) && (i < |l| ==> l[i] == x)
    ensures forall j :: 0 <= j < i ==> l[j] != x
  {
    if l == [] || l[0] == x then 0 else 1 + IndexOf(l[1..], x)
  }
}
