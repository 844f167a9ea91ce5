/** Paged session listing (`session_list`, crates/client/src/client_core.rs, lines 280 to 323). */
module SessionList {
  import opened Wrappers

  datatype Page = Page(sessions: seq<string>, nextCursor: Option<string>)

  datatype ListError = RepeatedCursor | RequestFailed(message: string)

  /** The server's reply to the k-th request. */
  type Replies = nat -> Result<Page, string>

  /** The first `n` replies are pages that each name a next cursor, no cursor twice. */
  ghost predicate Named(replies: Replies, n: nat) {
    && (forall k: nat | k < n :: replies(k).Ok? && replies(k).value.nextCursor.Some?)
    && (forall j: nat, k: nat | j < k < n :: replies(j).value.nextCursor != replies(k).value.nextCursor)
  }

  /** A complete listing of `n + 1` pages: only the last names no next cursor. */
  ghost predicate Complete(replies: Replies, n: nat) {
    Named(replies, n) && replies(n).Ok? && replies(n).value.nextCursor.None?
  }

  /** The sessions of the first `n` pages. */
  ghost function Sessions(replies: Replies, n: nat): seq<string>
    requires forall k: nat | k < n :: replies(k).Ok?
  {
    if n == 0 then [] else Sessions(replies, n - 1) + replies(n - 1).value.sessions
  }

  /** The reply after `n` named pages fails, or repeats a cursor. */
  ghost predicate Broken(replies: Replies, n: nat) {
    && Named(replies, n)
    && (replies(n).Err?
        || (replies(n).value.nextCursor.Some?
            && SeenBefore(replies, n, replies(n).value.nextCursor.value)))
  }

  /** A server either completes its listing at one page or breaks it at one page, never both. */
  lemma OneEnd(replies: Replies, n: nat, m: nat)
    requires Complete(replies, n) && (Complete(replies, m) || Broken(replies, m))
    ensures n == m && Complete(replies, m)
  {
    assert replies(n).Ok? && replies(n).value.nextCursor.None?;
    assert replies(m).Ok? ==> m <= n;
  }

  /** The cursors of the requests: none, then each the one named last. */
  ghost predicate Requested(replies: Replies, sent: seq<Option<string>>) {
    forall k: nat | k < |sent| :: RequestAt(replies, k, sent[k])
  }

  ghost predicate SeenBefore(replies: Replies, n: nat, x: string) {
    exists k: nat | k < n :: replies(k).Ok? && replies(k).value.nextCursor == Some(x)
  }

  /** Exactly the cursors of the first `n` replies. */
  ghost predicate Seen(replies: Replies, n: nat, seenCursors: set<string>) {
    && (forall x | x in seenCursors :: SeenBefore(replies, n, x))
    && (forall k: nat | k < n && replies(k).Ok? && replies(k).value.nextCursor.Some? ::
          replies(k).value.nextCursor.value in seenCursors)
  }

  ghost predicate RequestAt(replies: Replies, k: nat, cursor: Option<string>) {
    if k == 0 then cursor == None else replies(k - 1).Ok? && cursor == replies(k - 1).value.nextCursor
  }

  /** What the loop of `session_list` has established before a request. */
  ghost predicate Listing(
    replies: Replies, cursors: set<string>, sent: seq<Option<string>>, cursor: Option<string>,
    seenCursors: set<string>, sessions: seq<string>)
  {
    && Named(replies, |sent|) && Requested(replies, sent + [cursor])
    && seenCursors <= cursors && |seenCursors| == |sent| <= |cursors|
    && Seen(replies, |sent|, seenCursors)
    && sessions == Sessions(replies, |sent|)
  }

  lemma ListingStep(
    replies: Replies, cursors: set<string>, sent: seq<Option<string>>, cursor: Option<string>,
    seenCursors: set<string>, sessions: seq<string>)
    requires Listing(replies, cursors, sent, cursor, seenCursors, sessions)
    requires replies(|sent|).Ok? && replies(|sent|).value.nextCursor.Some?
    requires replies(|sent|).value.nextCursor.value in cursors
    ensures var page := replies(|sent|).value;
            if page.nextCursor.value in seenCursors then Broken(replies, |sent|)
            else Listing(replies, cursors, sent + [cursor], page.nextCursor,
                   seenCursors + {page.nextCursor.value}, sessions + page.sessions)
                 && |seenCursors| < |seenCursors + {page.nextCursor.value}| <= |cursors|
  {
    var n, page := |sent|, replies(|sent|).value;
    var x := page.nextCursor.value;
    if x !in seenCursors {
      NamedStep(replies, n, seenCursors);
      RequestedStep(replies, sent + [cursor], page.nextCursor);
      SubsetSize(seenCursors + {x}, cursors);
      SessionsStep(replies, n);
      SeenStep(replies, n, seenCursors, x);
      hide Named, Requested, Sessions, Seen;
      assert |seenCursors + {x}| == n + 1;
    }
  }

  lemma SessionsStep(replies: Replies, n: nat)
    requires Named(replies, n) && replies(n).Ok?
    ensures forall k: nat | k < n + 1 :: replies(k).Ok?
    ensures Sessions(replies, n + 1) == Sessions(replies, n) + replies(n).value.sessions
  {
  }

  lemma NamedStep(replies: Replies, n: nat, seenCursors: set<string>)
    requires Named(replies, n) && replies(n).Ok? && replies(n).value.nextCursor.Some?
    requires Seen(replies, n, seenCursors) && replies(n).value.nextCursor.value !in seenCursors
    ensures Named(replies, n + 1)
  {
  }

  lemma SeenStep(replies: Replies, n: nat, seenCursors: set<string>, x: string)
    requires Seen(replies, n, seenCursors) && replies(n).Ok? && replies(n).value.nextCursor == Some(x)
    ensures Seen(replies, n + 1, seenCursors + {x})
  {
    forall y | y in seenCursors + {x}
      ensures SeenBefore(replies, n + 1, y)
    {
      if y in seenCursors {
        var k: nat :| k < n && replies(k).Ok? && replies(k).value.nextCursor == Some(y);
      }
    }
  }

  lemma RequestedStep(replies: Replies, sent: seq<Option<string>>, cursor: Option<string>)
    requires Requested(replies, sent) && sent != []
    requires replies(|sent| - 1).Ok? && cursor == replies(|sent| - 1).value.nextCursor
    ensures Requested(replies, sent + [cursor])
  {
    assert RequestAt(replies, |sent|, cursor);
  }

  /** Where the loop may end. */
  lemma ListingEnd(
    replies: Replies, cursors: set<string>, sent: seq<Option<string>>, cursor: Option<string>,
    seenCursors: set<string>, sessions: seq<string>)
    requires Listing(replies, cursors, sent, cursor, seenCursors, sessions)
    ensures |sent| <= |cursors| && Requested(replies, sent + [cursor])
    ensures replies(|sent|).Err? ==> Broken(replies, |sent|)
    ensures replies(|sent|).Ok? && replies(|sent|).value.nextCursor.None? ==>
              && Complete(replies, |sent|)
              && (forall k: nat | k < |sent| + 1 :: replies(k).Ok?)
              && sessions + replies(|sent|).value.sessions == Sessions(replies, |sent| + 1)
  {
  }

  /**
   `session_list`: the sessions of the complete listing if there is one, and an error if the listing is
   broken; each request passes the cursor named last, and there is at most one request more than cursors.
   */
  method ListSessions(replies: Replies, ghost cursors: set<string>)
    returns (r: Result<seq<string>, ListError>, sent: seq<Option<string>>)
    requires forall k: nat :: replies(k).Ok? && replies(k).value.nextCursor.Some? ==>
               replies(k).value.nextCursor.value in cursors
    ensures 1 <= |sent| <= |cursors| + 1 && Requested(replies, sent)
    ensures r.Ok? ==> Complete(replies, |sent| - 1) && (forall k: nat | k < |sent| :: replies(k).Ok?)
                      && r.value == Sessions(replies, |sent|)
    ensures r.Err? ==> Broken(replies, |sent| - 1) && (r.error.RepeatedCursor? <==> replies(|sent| - 1).Ok?)
  {
    var cursor: Option<string> := None;
    var seenCursors: set<string> := {};
    var sessions: seq<string> := [];
    sent := [];
    assert Listing(replies, cursors, sent, cursor, seenCursors, sessions);
    hide *;
    while true
      invariant Listing(replies, cursors, sent, cursor, seenCursors, sessions)
      decreases |cursors| - |seenCursors|
    {
      ListingEnd(replies, cursors, sent, cursor, seenCursors, sessions);
      var reply := replies(|sent|);
      ghost var before := sent;
      sent := sent + [cursor];
      if reply.Err? {
        return Err(RequestFailed(reply.error)), sent;
      }
      if reply.value.nextCursor.None? {
        return Ok(sessions + reply.value.sessions), sent;
      }
      ListingStep(replies, cursors, before, cursor, seenCursors, sessions);
      sessions := sessions + reply.value.sessions;
      var nextCursor := reply.value.nextCursor.value;
      if nextCursor in seenCursors {
        return Err(RepeatedCursor), sent;
      }
      seenCursors := seenCursors + {nextCursor};
      cursor := Some(nextCursor);
    }
  }
}
