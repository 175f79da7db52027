/** The token queue of the earlier parser (the `tokens` member of include/gmshparsercppMshFile.h). */
module TokenQueues {
  import opened Tokens

  /**
   * The std::deque<Token> the parser queues its tokens in. `queued` is
   * every token ever pushed and `taken` how many of them have been popped,
   * so that what is still queued is the rest of `queued`.
   */
  class TokenQueue {
    var items: seq<Token>
    ghost var queued: seq<Token>
    ghost var taken: nat

    ghost predicate Valid()
      reads this
    {
      taken <= |queued| && items == queued[taken..]
    }

    /** The queue is consistent and `ts` is every token pushed to it. */
    ghost predicate Holds(ts: seq<Token>)
      reads this
    {
      Valid() && queued == ts
    }

    constructor ()
      ensures Valid() && queued == [] && taken == 0
    {
      items := [];
      queued := [];
      taken := 0;
    }

    /** size() > 0 */
    function NonEmpty(): (b: bool)
      reads this
      requires Valid()
      ensures b <==> taken < |queued|
    {
      items != []
    }

    /** front() */
    method Front() returns (t: Token)
      requires Valid() && taken < |queued|
      ensures t == queued[taken]
    {
      t := items[0];
    }

    /** push_back() */
    method PushBack(t: Token)
      requires Valid()
      modifies this
      ensures Valid() && queued == old(queued) + [t] && taken == old(taken)
    {
      items := items + [t];
      queued := queued + [t];
    }

    /** front() followed by pop_front() */
    method PopFront() returns (t: Token)
      requires Valid() && taken < |queued|
      modifies this
      ensures Valid() && queued == old(queued) && taken == old(taken) + 1 && t == queued[old(taken)]
    {
      t := items[0];
      items := items[1..];
      taken := taken + 1;
    }
  }
}
