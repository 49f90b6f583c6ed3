/**
 * The tail-only edit stack shared by both document kinds. `pushEdits`
 * appends its argument; `popEdits` runs a counting loop that calls
 * Array.prototype.pop once per element of its argument, so undoing past the
 * start of the history is clamped at the empty stack.
 */
module EditStack {

  /** Array.prototype.pop: drops the last element; an empty array stays empty. */
  function PopOne<E>(s: seq<E>): seq<E>
  {
    if |s| == 0 then s else s[..|s| - 1]
  }

  /**
   * `n` successive pops, one per iteration of popEdits' loop. The result is
   * the prefix of `s` that is `n` shorter, or empty when `n` exceeds the depth.
   */
  function PopMany<E>(s: seq<E>, n: nat): (r: seq<E>)
    ensures |r| == if n <= |s| then |s| - n else 0
    ensures r == s[..|r|]
    decreases n
  {
    if n == 0 then s else PopMany(PopOne(s), n - 1)
  }

  /** Popping as many edits as were just pushed restores the stack exactly. */
  lemma {:induction false} PushThenPop<E>(s: seq<E>, es: seq<E>)
    ensures PopMany(s + es, |es|) == s
  {
    var r := PopMany(s + es, |es|);
    assert |r| == |s|;
    assert r == (s + es)[..|s|];
  }

  /** Undoing `a` edits and then `b` more is the same as undoing `a + b` at once. */
  lemma {:induction false} PopManyAdditive<E>(s: seq<E>, a: nat, b: nat)
    ensures PopMany(PopMany(s, a), b) == PopMany(s, a + b)
  {
    var r1 := PopMany(PopMany(s, a), b);
    var r2 := PopMany(s, a + b);
    assert |r1| == |r2|;
    assert r1 == PopMany(s, a)[..|r1|];
  }

  /** Popping never underflows: an empty stack absorbs any number of pops. */
  lemma {:induction false} PopEmpty<E>(n: nat)
    ensures PopMany<E>([], n) == []
  {
  }
}
