/** Lists of parameter keys (positions), as the rule hands them to the remover. */
module KeyLists {

  predicate StrictlyIncreasing(s: seq<nat>)
  {
    forall i, j | 0 <= i < j < |s| :: s[i] < s[j]
  }

  /** Dropping the head of a strictly increasing list removes exactly that head. */
  lemma {:induction false} TailElements(s: seq<nat>)
    requires |s| > 0 && StrictlyIncreasing(s)
    ensures StrictlyIncreasing(s[1..])
    ensures forall x :: x in s[1..] <==> x in s && x != s[0]
  {
    forall x
      ensures x in s[1..] <==> x in s && x != s[0]
    {
      if x in s[1..] {
        var k :| 0 <= k < |s[1..]| && s[1..][k] == x;
        assert s[k + 1] == x;
      }
      if x in s && x != s[0] {
        var k :| 0 <= k < |s| && s[k] == x;
        assert k != 0;
        assert s[1..][k - 1] == x;
      }
    }
  }

  /** The head of a strictly increasing list is its least element. */
  lemma HeadIsLeast(s: seq<nat>)
    requires |s| > 0 && StrictlyIncreasing(s)
    ensures forall x :: x in s ==> s[0] <= x
  {
    forall x | x in s
      ensures s[0] <= x
    {
      var k :| 0 <= k < |s| && s[k] == x;
      if k > 0 {
        assert s[0] < s[k];
      }
    }
  }

  /** A strictly increasing list is determined by the set of its elements. */
  lemma {:induction false} StrictlyIncreasingUnique(a: seq<nat>, b: seq<nat>)
    requires StrictlyIncreasing(a) && StrictlyIncreasing(b)
    requires forall x :: x in a <==> x in b
    ensures a == b
    decreases |a|
  {
    assert |b| > 0 ==> b[0] in b;
    if |a| > 0 {
      assert a[0] in b;
      assert |b| > 0;
      assert b[0] in a;
      HeadIsLeast(a);
      HeadIsLeast(b);
      TailElements(a);
      TailElements(b);
      StrictlyIncreasingUnique(a[1..], b[1..]);
      assert a == [a[0]] + a[1..];
      assert b == [b[0]] + b[1..];
    }
  }
}
