/**
 * The broadcast both providers run in `update(resource, trigger)`: every
 * editor of the resource, in set order, except the triggering one, is asked
 * to `update()`, and an editor that is already disposed posts nothing.
 */
module Sync {
  import opened Host
  import opened InsertionSet

  /** A `setValue` message posted to the webview of `editor`. */
  datatype Post<C> = Post(editor: nat, content: C)

  /** Whether `e` posts on a broadcast that excludes `trigger`. */
  predicate Receives(e: nat, trigger: Option<nat>, disposed: set<nat>)
  {
    trigger != Some(e) && e !in disposed
  }

  /** The posts one broadcast of `content` appends, in the iteration order of `editors`. */
  function Broadcast<C>(editors: seq<nat>, trigger: Option<nat>, disposed: set<nat>, content: C): (r: seq<Post<C>>)
    ensures |r| <= |editors|
    ensures forall p :: p in r ==> p.content == content && Receives(p.editor, trigger, disposed)
    decreases |editors|
  {
    if |editors| == 0 then []
    else
      var last := editors[|editors| - 1];
      Broadcast(editors[..|editors| - 1], trigger, disposed, content)
        + (if Receives(last, trigger, disposed) then [Post(last, content)] else [])
  }

  /**
   * A broadcast only posts the given content, only to editors of the set
   * that receive, and at most once per editor of the set.
   */
  lemma {:induction false} BroadcastSendsContent<C>(editors: seq<nat>, trigger: Option<nat>, disposed: set<nat>, content: C)
    ensures |Broadcast(editors, trigger, disposed, content)| <= |editors|
    ensures forall p :: p in Broadcast(editors, trigger, disposed, content) ==>
              p.content == content && p.editor in editors && Receives(p.editor, trigger, disposed)
    ensures NoDup(editors) ==> forall e :: PostsTo(Broadcast(editors, trigger, disposed, content), e) <= 1
    decreases |editors|
  {
    if |editors| > 0 {
      BroadcastSendsContent(editors[..|editors| - 1], trigger, disposed, content);
    }
    if NoDup(editors) {
      forall e: nat
        ensures PostsTo(Broadcast(editors, trigger, disposed, content), e) <= 1
      {
        DeliveredOnce(editors, trigger, disposed, content, e);
      }
    }
  }

  /** One more editor in iteration order adds at most its own post at the end. */
  lemma BroadcastSnoc<C>(editors: seq<nat>, e: nat, trigger: Option<nat>, disposed: set<nat>, content: C)
    ensures Broadcast(editors + [e], trigger, disposed, content)
            == Broadcast(editors, trigger, disposed, content)
               + (if Receives(e, trigger, disposed) then [Post(e, content)] else [])
  {
    assert (editors + [e])[..|editors|] == editors;
  }

  /**
   * One iteration of update's loop: once the editors before `i` have had
   * their turn, the turn of editor `i` appends at most its own post.
   */
  lemma BroadcastStep<C>(start: seq<Post<C>>, before: seq<Post<C>>, after: seq<Post<C>>,
                         editors: seq<nat>, i: nat, trigger: Option<nat>, disposed: set<nat>, content: C)
    requires i < |editors|
    requires before == start + Broadcast(editors[..i], trigger, disposed, content)
    requires after == before + (if Receives(editors[i], trigger, disposed) then [Post(editors[i], content)] else [])
    ensures after == start + Broadcast(editors[..i + 1], trigger, disposed, content)
  {
    assert editors[..i + 1] == editors[..i] + [editors[i]];
    BroadcastSnoc(editors[..i], editors[i], trigger, disposed, content);
  }

  /** How many of `posts` went to `e`. */
  function PostsTo<C>(posts: seq<Post<C>>, e: nat): nat
  {
    if |posts| == 0 then 0
    else PostsTo(posts[..|posts| - 1], e) + (if posts[|posts| - 1].editor == e then 1 else 0)
  }

  lemma {:induction false} PostsToAppend<C>(a: seq<Post<C>>, b: seq<Post<C>>, e: nat)
    ensures PostsTo(a + b, e) == PostsTo(a, e) + PostsTo(b, e)
    decreases |b|
  {
    if |b| == 0 {
      assert a + b == a;
    } else {
      assert (a + b)[..|a + b| - 1] == a + b[..|b| - 1];
      PostsToAppend(a, b[..|b| - 1], e);
    }
  }

  /**
   * Each editor of the set other than the trigger, and not disposed, gets
   * exactly one post from a broadcast; every other editor gets none.
   */
  lemma {:induction false} DeliveredOnce<C>(editors: seq<nat>, trigger: Option<nat>, disposed: set<nat>, content: C, e: nat)
    requires NoDup(editors)
    ensures PostsTo(Broadcast(editors, trigger, disposed, content), e)
            == if e in editors && Receives(e, trigger, disposed) then 1 else 0
    decreases |editors|
  {
    if |editors| > 0 {
      var init, last := editors[..|editors| - 1], editors[|editors| - 1];
      assert editors == init + [last];
      assert NoDup(init);
      DeliveredOnce(init, trigger, disposed, content, e);
      var tail: seq<Post<C>> := if Receives(last, trigger, disposed) then [Post(last, content)] else [];
      PostsToAppend(Broadcast(init, trigger, disposed, content), tail, e);
      if tail != [] {
        assert tail[..0] == [];
      }
      assert last == e ==> e !in init;
    }
  }
}
