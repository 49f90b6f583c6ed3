/**
 * A JavaScript `Set`, which iterates in insertion order, modelled as a
 * sequence without repetitions.
 */
module InsertionSet {

  predicate NoDup<T(==,!new)>(s: seq<T>)
  {
    forall i, j :: 0 <= i < j < |s| ==> s[i] != s[j]
  }

  /** Set.prototype.add: a member already present keeps its place, a new one goes last. */
  function Add<T(==,!new)>(s: seq<T>, x: T): (r: seq<T>)
    ensures forall y :: y in r <==> y in s || y == x
    ensures NoDup(s) ==> NoDup(r)
    ensures x !in s ==> r == s + [x]
    ensures x in s ==> r == s
  {
    if x in s then s else s + [x]
  }

  /** Set.prototype.delete: removes `x`, keeping the order of the others. */
  function Delete<T(==,!new)>(s: seq<T>, x: T): (r: seq<T>)
    ensures forall y :: y in r <==> y in s && y != x
    ensures NoDup(s) ==> NoDup(r)
    ensures NoDup(s) && x in s ==> |r| == |s| - 1
    ensures x !in s ==> r == s
  {
    if |s| == 0 then []
    else if s[0] == x then Delete(s[1..], x)
    else
      var rest := Delete(s[1..], x);
      assert NoDup(s) ==> s[0] !in s[1..] && NoDup(s[1..]);
      [s[0]] + rest
  }

  /** The members after the first have no repeats either, and the first is not among them. */
  lemma NoDupTail<T(!new)>(s: seq<T>)
    requires NoDup(s) && |s| > 0
    ensures NoDup(s[1..]) && s[0] !in s[1..]
  {
  }

  /** Deleting the member at position `i` keeps every other member in its place relative to the rest. */
  lemma {:induction false} DeleteKeepsOrder<T(!new)>(s: seq<T>, x: T, i: nat)
    requires NoDup(s) && i < |s| && s[i] == x
    ensures Delete(s, x) == s[..i] + s[i + 1..]
  {
    NoDupTail(s);
    if i == 0 {
      assert Delete(s, x) == Delete(s[1..], x);
    } else {
      var t := s[1..];
      assert s[0] != x by { assert s[0] == s[i] ==> false; }
      assert Delete(s, x) == [s[0]] + Delete(t, x);
      DeleteKeepsOrder(t, x, i - 1);
      assert s[..i] == [s[0]] + t[..i - 1];
      assert s[i + 1..] == t[i..];
    }
  }

  /** Deleting a member empties the set exactly when it was the only member. */
  lemma DeleteLast<T(!new)>(s: seq<T>, x: T)
    requires NoDup(s) && x in s
    ensures Delete(s, x) == [] <==> s == [x]
  {
    if s != [x] {
      var y := if s[0] != x then s[0] else s[1];
      assert y in s && y != x;
      assert y in Delete(s, x);
    }
  }
}
