/**
 The two retry loops of the scraper: `get_posts`, which reads one listing
 of a subreddit into a pipeline, and `process_post`, which reads the
 comments of one post into a pipeline of its own. The browser session and
 the network are replaced by a sequence of attempt outcomes, one per
 session the loop opens.
 */
module Scrape {
  import opened Normalize
  import opened Sink
  import opened Permalink
  import opened Seqs

  /** One child of a listing or of a comment tree: its fields, or `Missing` when reading them raises. */
  datatype Child<T> = Present(raw: T) | Missing

  /**
   What one browser session yields: an exception before any JSON is read
   (`Failed`), an empty answer (`Empty`), JSON whose children cannot be
   reached (`Malformed`), or the list of children.
   */
  datatype Attempt<T> = Failed | Empty | Malformed | Page(children: seq<Child<T>>)

  /** The fields of a listing child's `data` that `get_posts` reads. */
  datatype RawPost = RawPost(title: string, author: string, permalink: string, upvoteRatio: real)

  /** The fields of a comment child that `process_post` reads. */
  datatype RawComment = RawComment(kind: string, author: string, body: string, ups: int)

  /** `SearchData(name=title, author=author, permalink=permalink, upvote_ratio=upvote_ratio)`. */
  function PostRecord(p: RawPost): Record {
    Search(CheckSearchFields(SearchData(p.title, p.author, p.permalink, p.upvoteRatio)))
  }

  /** `CommentData(name=author, body=body, upvotes=ups)`: comments are keyed by their author. */
  function CommentRecord(c: RawComment): Record {
    Comment(CheckCommentFields(CommentData(c.author, c.body, c.ups)))
  }

  function PostRecords(ps: seq<RawPost>): seq<Record> {
    seq(|ps|, i requires 0 <= i < |ps| => PostRecord(ps[i]))
  }

  function CommentRecords(cs: seq<RawComment>): seq<Record> {
    seq(|cs|, i requires 0 <= i < |cs| => CommentRecord(cs[i]))
  }

  lemma PostRecordsSnoc(ps: seq<RawPost>, p: RawPost)
    ensures PostRecords(ps + [p]) == PostRecords(ps) + [PostRecord(p)]
  {
    assert forall i :: 0 <= i < |ps| ==> (ps + [p])[i] == ps[i];
  }

  lemma CommentRecordsAppend(a: seq<RawComment>, b: seq<RawComment>)
    ensures CommentRecords(a + b) == CommentRecords(a) + CommentRecords(b)
  {
    var l := CommentRecords(a + b);
    var r := CommentRecords(a) + CommentRecords(b);
    forall i | 0 <= i < |l| ensures l[i] == r[i] {
      if i < |a| { assert (a + b)[i] == a[i]; } else { assert (a + b)[i] == b[i - |a|]; }
    }
  }

  predicate AllPresent<T>(cs: seq<Child<T>>) {
    forall i :: 0 <= i < |cs| ==> cs[i].Present?
  }

  /** The children handled before the first one that raises; all of them when none does. */
  function PresentPrefix<T>(cs: seq<Child<T>>): (r: seq<T>)
    ensures |r| <= |cs|
    ensures forall i :: 0 <= i < |r| ==> cs[i] == Present(r[i])
    ensures |r| < |cs| ==> cs[|r|].Missing?
    ensures |r| == |cs| <==> AllPresent(cs)
  {
    if cs == [] || cs[0].Missing? then []
    else
      var rest := PresentPrefix(cs[1..]);
      assert forall i :: 1 <= i < |cs| ==> cs[i] == cs[1..][i - 1];
      [cs[0].raw] + rest
  }

  /** A page whose every child can be read. */
  function Presents<T>(xs: seq<T>): seq<Child<T>> {
    seq(|xs|, i requires 0 <= i < |xs| => Present(xs[i]))
  }

  /** Children that can all be read, followed by nothing or by one that raises, yield exactly their fields. */
  lemma {:induction false} PresentPrefixOfPresents<T>(xs: seq<T>, rest: seq<Child<T>>)
    requires rest == [] || rest[0].Missing?
    ensures PresentPrefix(Presents(xs) + rest) == xs
  {
    var cs := Presents(xs) + rest;
    if xs == [] {
      assert cs == rest;
    } else {
      assert cs[0] == Present(xs[0]);
      assert cs[1..] == Presents(xs[1..]) + rest;
      PresentPrefixOfPresents(xs[1..], rest);
    }
  }

  /** `comment["kind"] != "more"`: the comments kept, in order; "more" placeholders are skipped. */
  function Kept(cs: seq<RawComment>): seq<RawComment> {
    if cs == [] then []
    else
      var last := cs[|cs| - 1];
      Kept(cs[..|cs| - 1]) + if last.kind != "more" then [last] else []
  }

  /** A comment is kept exactly when it is a child whose kind is not "more". */
  lemma {:induction false} KeptMembers(cs: seq<RawComment>)
    ensures forall c :: c in Kept(cs) <==> c in cs && c.kind != "more"
  {
    if cs != [] {
      var last := cs[|cs| - 1];
      assert cs == cs[..|cs| - 1] + [last];
      KeptMembers(cs[..|cs| - 1]);
    }
  }

  /** The filter works child by child. */
  lemma {:induction false} KeptAppend(a: seq<RawComment>, b: seq<RawComment>)
    ensures Kept(a + b) == Kept(a) + Kept(b)
  {
    if b == [] {
      assert a + b == a;
    } else {
      var init := b[..|b| - 1];
      var last := b[|b| - 1];
      assert a + b == (a + init) + [last];
      assert (a + b)[..|a + b| - 1] == a + init;
      KeptAppend(a, init);
    }
  }

  /** One more child adds its record to the kept ones exactly when its kind is not "more". */
  lemma KeptRecordsSnoc(cs: seq<RawComment>, c: RawComment)
    ensures CommentRecords(Kept(cs + [c])) ==
      CommentRecords(Kept(cs)) + if c.kind != "more" then [CommentRecord(c)] else []
  {
    assert (cs + [c])[..|cs|] == cs;
    CommentRecordsAppend(Kept(cs), if c.kind != "more" then [c] else []);
  }

  /** `while tries <= retries`: the number of sessions the loop may open. */
  function AttemptBound(retries: int): nat {
    if retries < 0 then 0 else retries + 1
  }

  /** The index of the first of `s[..n]` meeting `stop`, or `n` when none does. */
  function FirstWhere<T>(s: seq<T>, stop: T -> bool, n: nat): (k: nat)
    requires n <= |s|
    ensures k <= n
    ensures forall j :: 0 <= j < k ==> !stop(s[j])
    ensures k < n ==> stop(s[k])
  {
    if n == 0 then 0
    else
      var k := FirstWhere(s, stop, n - 1);
      if k < n - 1 then k else if stop(s[n - 1]) then n - 1 else n
  }

  /** The first index meeting `stop` is the only one before which nothing meets it. */
  lemma FirstWhereIs<T>(s: seq<T>, stop: T -> bool, n: nat, k: nat)
    requires k <= n <= |s|
    requires forall j :: 0 <= j < k ==> !stop(s[j])
    requires k < n ==> stop(s[k])
    ensures FirstWhere(s, stop, n) == k
  {
  }

  /** An index before the first stop that does not stop itself lies strictly before it. */
  lemma FirstWhereBeyond<T>(s: seq<T>, stop: T -> bool, n: nat, j: nat)
    requires n <= |s| && j < n && j <= FirstWhere(s, stop, n) && !stop(s[j])
    ensures j < FirstWhere(s, stop, n)
  {
  }

  /** An index that stops and lies at or before the first stop is the first stop. */
  lemma FirstWhereReached<T>(s: seq<T>, stop: T -> bool, n: nat, j: nat)
    requires n <= |s| && j < n && j <= FirstWhere(s, stop, n) && stop(s[j])
    ensures j == FirstWhere(s, stop, n)
  {
  }

  // ---------------------------------------------------------------------
  // get_posts
  // ---------------------------------------------------------------------

  /** A listing attempt that got past `if resp:` sets `success` and is never retried. */
  predicate Responded<T>(a: Attempt<T>) {
    a.Malformed? || a.Page?
  }

  /** The posts a listing attempt hands to the pipeline. */
  function PageListing(a: Attempt<RawPost>): seq<Record> {
    if a.Page? then PostRecords(PresentPrefix(a.children)) else []
  }

  /** How many browser sessions `get_posts` opens. */
  function ListingSessions(attempts: seq<Attempt<RawPost>>, retries: int): nat
    requires AttemptBound(retries) <= |attempts|
  {
    var n := AttemptBound(retries);
    var k := FirstWhere(attempts, Responded, n);
    if k < n then k + 1 else n
  }

  /** The records `get_posts` hands to the pipeline: those of the first attempt that responded. */
  function ListingAdded(attempts: seq<Attempt<RawPost>>, retries: int): seq<Record>
    requires AttemptBound(retries) <= |attempts|
  {
    var n := AttemptBound(retries);
    var k := FirstWhere(attempts, Responded, n);
    if k < n then PageListing(attempts[k]) else []
  }

  /** The body of the loop over `children` in `get_posts`: build the post's `SearchData` and add it. */
  method AddPost(raw: RawPost, dataPipeline: DataPipeline)
    requires dataPipeline.Valid()
    modifies dataPipeline
    ensures dataPipeline.Valid()
    ensures dataPipeline.added == old(dataPipeline.added) + [PostRecord(raw)]
    ensures dataPipeline.csvFileOpen == old(dataPipeline.csvFileOpen)
  {
    dataPipeline.AddData(PostRecord(raw));
  }

  /**
   The loop over `children` in `get_posts`: each child's post goes to the
   pipeline until a child raises, which ends the loop.
   */
  method AddPosts(children: seq<Child<RawPost>>, dataPipeline: DataPipeline) returns (failed: bool)
    requires dataPipeline.Valid()
    modifies dataPipeline
    ensures dataPipeline.Valid()
    ensures failed == !AllPresent(children)
    ensures dataPipeline.added == old(dataPipeline.added) + PostRecords(PresentPrefix(children))
    ensures dataPipeline.csvFileOpen == old(dataPipeline.csvFileOpen)
  {
    ghost var prefix := PresentPrefix(children);
    ghost var start := dataPipeline.added;
    ghost var out := [];
    failed := false;
    var i := 0;
    while i < |children| && !failed
      invariant 0 <= i <= |prefix|
      invariant out == PostRecords(prefix[..i])
      invariant dataPipeline.Valid() && dataPipeline.added == start + out
      invariant dataPipeline.csvFileOpen == old(dataPipeline.csvFileOpen)
      invariant failed ==> i == |prefix| < |children|
      decreases |children| - i, !failed
    {
      match children[i]
      case Missing =>
        failed := true;
      case Present(raw) =>
        assert i < |prefix| && prefix[i] == raw;
        TakeSnoc(prefix, i);
        PostRecordsSnoc(prefix[..i], raw);
        AppendAssoc(start, out, [PostRecord(raw)]);
        out := out + [PostRecord(raw)];
        AddPost(raw, dataPipeline);
        i := i + 1;
    }
    assert prefix[..|prefix|] == prefix;
  }

  /**
   `get_posts(feed, retries=retries, data_pipeline=dataPipeline)`: open a
   session per attempt until one responds or the retries are used up. The
   result is the number of sessions opened.
   */
  method GetPosts(attempts: seq<Attempt<RawPost>>, retries: int := 3, dataPipeline: DataPipeline) returns (sessions: nat)
    requires AttemptBound(retries) <= |attempts|
    requires dataPipeline.Valid()
    modifies dataPipeline
    ensures dataPipeline.Valid()
    ensures sessions == ListingSessions(attempts, retries)
    ensures dataPipeline.added == old(dataPipeline.added) + ListingAdded(attempts, retries)
    ensures dataPipeline.csvFileOpen == old(dataPipeline.csvFileOpen)
  {
    var tries := 0;
    var success := false;
    sessions := 0;
    ghost var start := dataPipeline.added;
    ghost var n := AttemptBound(retries);
    ghost var k := FirstWhere(attempts, Responded, n);
    while tries <= retries && !success
      invariant 0 <= tries <= sessions <= n
      invariant dataPipeline.Valid() && dataPipeline.csvFileOpen == old(dataPipeline.csvFileOpen)
      invariant !success ==> sessions == tries <= k && dataPipeline.added == start
      invariant success ==> (k < n && sessions == k + 1
        && dataPipeline.added == start + PageListing(attempts[k]))
      decreases n - sessions
    {
      sessions := sessions + 1;
      var raised;
      success, raised := ListingAttempt(attempts[tries], dataPipeline);
      if success {
        FirstWhereReached(attempts, Responded, n, tries);
      } else {
        FirstWhereBeyond(attempts, Responded, n, tries);
        assert start + [] == start;
      }
      if raised {
        tries := tries + 1;
      }
    }
    if !success {
      assert k == n && ListingAdded(attempts, retries) == [];
      assert start + [] == start;
    }
  }

  /**
   The `try` block of `get_posts` for one session: `success` is set once the
   answer is non-empty, before its children are read, and `raised` says
   whether an exception reached the `except` clause.
   */
  method ListingAttempt(attempt: Attempt<RawPost>, dataPipeline: DataPipeline) returns (success: bool, raised: bool)
    requires dataPipeline.Valid()
    modifies dataPipeline
    ensures dataPipeline.Valid()
    ensures success == Responded(attempt)
    ensures raised == !(attempt.Page? && AllPresent(attempt.children))
    ensures dataPipeline.added == old(dataPipeline.added) + PageListing(attempt)
    ensures dataPipeline.csvFileOpen == old(dataPipeline.csvFileOpen)
  {
    match attempt
    case Failed =>
      success, raised := false, true;
    case Empty =>
      success, raised := false, true;
    case Malformed =>
      success, raised := true, true;
    case Page(children) =>
      success := true;
      raised := AddPosts(children, dataPipeline);
  }

  /** `get_posts` opens at most `retries + 1` sessions, and one whenever `retries` is not negative. */
  lemma ListingSessionsBound(attempts: seq<Attempt<RawPost>>, retries: int)
    requires AttemptBound(retries) <= |attempts|
    ensures ListingSessions(attempts, retries) <= AttemptBound(retries)
    ensures ListingSessions(attempts, retries) >= 1 <==> retries >= 0
  {
  }

  /** When no attempt responds, every retry is used and nothing reaches the pipeline. */
  lemma ListingAllFail(attempts: seq<Attempt<RawPost>>, retries: int)
    requires AttemptBound(retries) <= |attempts|
    requires forall j :: 0 <= j < AttemptBound(retries) ==> !Responded(attempts[j])
    ensures ListingSessions(attempts, retries) == AttemptBound(retries)
    ensures ListingAdded(attempts, retries) == []
  {
    FirstWhereIs(attempts, Responded, AttemptBound(retries), AttemptBound(retries));
  }

  /**
   After `k` failed attempts the one that responds is the last: even when
   one of its children raises, the loop stops with the posts read so far.
   */
  lemma ListingFirstResponse(attempts: seq<Attempt<RawPost>>, retries: int, k: nat)
    requires AttemptBound(retries) <= |attempts|
    requires k < AttemptBound(retries) && Responded(attempts[k])
    requires forall j :: 0 <= j < k ==> !Responded(attempts[j])
    ensures ListingSessions(attempts, retries) == k + 1
    ensures ListingAdded(attempts, retries) == PageListing(attempts[k])
  {
    FirstWhereIs(attempts, Responded, AttemptBound(retries), k);
  }

  // ---------------------------------------------------------------------
  // process_post
  // ---------------------------------------------------------------------

  /** A comment attempt succeeds when its tree is reached and no child raises. */
  predicate Succeeds(a: Attempt<RawComment>) {
    a.Page? && AllPresent(a.children)
  }

  /** The comments one attempt hands to the pipeline, whether or not it succeeds. */
  function AttemptComments(a: Attempt<RawComment>): seq<Record> {
    if a.Page? then CommentRecords(Kept(PresentPrefix(a.children))) else []
  }

  /** Everything the first `m` attempts hand to the shared pipeline, in order. */
  function CommentsUpTo(attempts: seq<Attempt<RawComment>>, m: nat): seq<Record>
    requires m <= |attempts|
  {
    if m == 0 then [] else CommentsUpTo(attempts, m - 1) + AttemptComments(attempts[m - 1])
  }

  /** How many browser sessions `process_post` opens once its pipeline exists. */
  function DetailSessions(attempts: seq<Attempt<RawComment>>, retries: int): nat
    requires AttemptBound(retries) <= |attempts|
  {
    var n := AttemptBound(retries);
    var k := FirstWhere(attempts, Succeeds, n);
    if k < n then k + 1 else n
  }

  /** Whether some attempt within the bound succeeds, so that `process_post` does not raise. */
  predicate DetailSucceeded(attempts: seq<Attempt<RawComment>>, retries: int)
    requires AttemptBound(retries) <= |attempts|
  {
    FirstWhere(attempts, Succeeds, AttemptBound(retries)) < AttemptBound(retries)
  }

  /** The records `process_post` hands to its pipeline: those of every attempt it makes. */
  function DetailAdded(attempts: seq<Attempt<RawComment>>, retries: int): seq<Record>
    requires AttemptBound(retries) <= |attempts|
  {
    CommentsUpTo(attempts, DetailSessions(attempts, retries))
  }

  /** The body of the loop over `comments_list` for a kept child: build its `CommentData` and add it. */
  method AddComment(comment: RawComment, commentPipeline: DataPipeline)
    requires commentPipeline.Valid()
    modifies commentPipeline
    ensures commentPipeline.Valid()
    ensures commentPipeline.added == old(commentPipeline.added) + [CommentRecord(comment)]
    ensures commentPipeline.csvFileOpen == old(commentPipeline.csvFileOpen)
  {
    commentPipeline.AddData(CommentRecord(comment));
  }

  /**
   The loop over `comments_list` in `process_post`: every child whose kind
   is not "more" goes to the pipeline, until a child raises.
   */
  method AddComments(children: seq<Child<RawComment>>, commentPipeline: DataPipeline) returns (failed: bool)
    requires commentPipeline.Valid()
    modifies commentPipeline
    ensures commentPipeline.Valid()
    ensures failed == !AllPresent(children)
    ensures commentPipeline.added == old(commentPipeline.added) + CommentRecords(Kept(PresentPrefix(children)))
    ensures commentPipeline.csvFileOpen == old(commentPipeline.csvFileOpen)
  {
    ghost var prefix := PresentPrefix(children);
    ghost var start := commentPipeline.added;
    ghost var out := [];
    failed := false;
    var i := 0;
    while i < |children| && !failed
      invariant 0 <= i <= |prefix|
      invariant out == CommentRecords(Kept(prefix[..i]))
      invariant commentPipeline.Valid() && commentPipeline.added == start + out
      invariant commentPipeline.csvFileOpen == old(commentPipeline.csvFileOpen)
      invariant failed ==> i == |prefix| < |children|
      decreases |children| - i, !failed
    {
      match children[i]
      case Missing =>
        failed := true;
      case Present(comment) =>
        assert i < |prefix| && prefix[i] == comment;
        TakeSnoc(prefix, i);
        KeptRecordsSnoc(prefix[..i], comment);
        if comment.kind != "more" {
          AppendAssoc(start, out, [CommentRecord(comment)]);
          out := out + [CommentRecord(comment)];
          AddComment(comment, commentPipeline);
        }
        i := i + 1;
    }
    assert prefix[..|prefix|] == prefix;
  }

  /**
   `process_post` for a post with this permalink, on a file that already
   holds `existing`. An unusable permalink raises before any pipeline or
   session exists; otherwise one pipeline is shared by every attempt, is
   closed by the attempt that succeeds, and `raised` reports the
   "Max retries exceeded" exception.
   */
  method ProcessPost(permalink: string, retries: int := 3, attempts: seq<Attempt<RawComment>>, existing: seq<Row>)
    returns (commentPipeline: DataPipeline?, sessions: nat, raised: bool)
    requires AttemptBound(retries) <= |attempts|
    ensures FilenameOf(permalink).None? ==> commentPipeline == null && sessions == 0 && raised
    ensures FilenameOf(permalink).Some? ==>
      && commentPipeline != null && fresh(commentPipeline) && commentPipeline.Valid()
      && !commentPipeline.csvFileOpen && |commentPipeline.storageQueue| < 50
      && commentPipeline.csvFilename == FilenameOf(permalink).value + ".csv"
      && commentPipeline.storageQueueLimit == 50 && commentPipeline.initialFile == existing
      && sessions == DetailSessions(attempts, retries)
      && raised == !DetailSucceeded(attempts, retries)
      && commentPipeline.added == DetailAdded(attempts, retries)
      && (!raised ==> commentPipeline.storageQueue == [] && commentPipeline.written == Dedup(commentPipeline.added))
  {
    var filename := FilenameOf(permalink);
    if filename.None? {
      return null, 0, true;
    }
    var p := new DataPipeline(filename.value + ".csv", 50, existing);
    commentPipeline := p;
    var success;
    sessions, success := RetryComments(p, retries, attempts);
    assert [] + DetailAdded(attempts, retries) == DetailAdded(attempts, retries);
    raised := !success;
  }

  /**
   The retry loop of `process_post` on its fresh pipeline: one session per
   attempt until one succeeds, which closes the pipeline, or the retries
   are used up.
   */
  method RetryComments(commentPipeline: DataPipeline, retries: int, attempts: seq<Attempt<RawComment>>)
    returns (sessions: nat, success: bool)
    requires AttemptBound(retries) <= |attempts|
    requires commentPipeline.Valid() && !commentPipeline.csvFileOpen
    modifies commentPipeline
    ensures commentPipeline.Valid() && !commentPipeline.csvFileOpen
    ensures sessions == DetailSessions(attempts, retries)
    ensures success == DetailSucceeded(attempts, retries)
    ensures commentPipeline.added == old(commentPipeline.added) + DetailAdded(attempts, retries)
    ensures success ==> commentPipeline.storageQueue == [] && commentPipeline.written == Dedup(commentPipeline.added)
  {
    var tries := 0;
    success := false;
    sessions := 0;
    ghost var n := AttemptBound(retries);
    ghost var k := FirstWhere(attempts, Succeeds, n);
    ghost var start := commentPipeline.added;
    while tries <= retries && !success
      invariant commentPipeline.Valid() && !commentPipeline.csvFileOpen
      invariant 0 <= tries <= sessions <= n
      invariant !success ==> sessions == tries <= k
      invariant success ==> (k < n && sessions == k + 1
        && commentPipeline.storageQueue == [] && commentPipeline.written == Dedup(commentPipeline.added))
      invariant commentPipeline.added == start + CommentsUpTo(attempts, sessions)
      decreases n - sessions
    {
      AppendAssoc(start, CommentsUpTo(attempts, sessions), AttemptComments(attempts[tries]));
      sessions := sessions + 1;
      success := CommentAttempt(attempts[tries], commentPipeline);
      if success {
        FirstWhereReached(attempts, Succeeds, n, tries);
      } else {
        FirstWhereBeyond(attempts, Succeeds, n, tries);
        tries := tries + 1;
      }
    }
  }

  /**
   The `try` block of `process_post` for one session: the kept comments go
   to the pipeline, and only when no exception is raised is the pipeline
   closed and `success` set.
   */
  method CommentAttempt(attempt: Attempt<RawComment>, commentPipeline: DataPipeline) returns (success: bool)
    requires commentPipeline.Valid()
    modifies commentPipeline
    ensures commentPipeline.Valid()
    ensures success == Succeeds(attempt)
    ensures commentPipeline.added == old(commentPipeline.added) + AttemptComments(attempt)
    ensures !old(commentPipeline.csvFileOpen) ==> !commentPipeline.csvFileOpen
    ensures success ==> commentPipeline.storageQueue == [] && commentPipeline.written == Dedup(commentPipeline.added)
  {
    match attempt
    case Failed =>
      success := false;
    case Empty =>
      success := false;
    case Malformed =>
      success := false;
    case Page(children) =>
      var failed := AddComments(children, commentPipeline);
      if !failed {
        commentPipeline.ClosePipeline();
      }
      success := !failed;
  }

  /** `process_post` raises exactly when no attempt within the bound succeeds. */
  lemma DetailSucceededIff(attempts: seq<Attempt<RawComment>>, retries: int)
    requires AttemptBound(retries) <= |attempts|
    ensures DetailSucceeded(attempts, retries) <==> exists j :: 0 <= j < AttemptBound(retries) && Succeeds(attempts[j])
  {
    var n := AttemptBound(retries);
    var k := FirstWhere(attempts, Succeeds, n);
    if k < n {
      assert Succeeds(attempts[k]);
    }
  }

  /** When every attempt fails, `process_post` opens `retries + 1` sessions and raises. */
  lemma DetailAllFail(attempts: seq<Attempt<RawComment>>, retries: int)
    requires AttemptBound(retries) <= |attempts|
    requires forall j :: 0 <= j < AttemptBound(retries) ==> !Succeeds(attempts[j])
    ensures DetailSessions(attempts, retries) == AttemptBound(retries)
    ensures !DetailSucceeded(attempts, retries)
  {
    FirstWhereIs(attempts, Succeeds, AttemptBound(retries), AttemptBound(retries));
  }

  /** After `k` failed attempts a successful one ends the loop after `k + 1` sessions. */
  lemma DetailFirstSuccess(attempts: seq<Attempt<RawComment>>, retries: int, k: nat)
    requires AttemptBound(retries) <= |attempts|
    requires k < AttemptBound(retries) && Succeeds(attempts[k])
    requires forall j :: 0 <= j < k ==> !Succeeds(attempts[j])
    ensures DetailSessions(attempts, retries) == k + 1
    ensures DetailSucceeded(attempts, retries)
    ensures DetailAdded(attempts, retries) == CommentsUpTo(attempts, k + 1)
  {
    FirstWhereIs(attempts, Succeeds, AttemptBound(retries), k);
  }

  /** Every record an attempt hands over comes from a child it read whose kind is not "more". */
  lemma AttemptCommentsSource(a: Attempt<RawComment>, i: nat)
    requires i < |AttemptComments(a)|
    ensures exists j :: (0 <= j < |PresentPrefix(a.children)| && a.children[j].Present? &&
      a.children[j].raw.kind != "more" && AttemptComments(a)[i] == CommentRecord(a.children[j].raw))
  {
    var prefix := PresentPrefix(a.children);
    var c := Kept(prefix)[i];
    KeptMembers(prefix);
    assert c in Kept(prefix);
    var j :| 0 <= j < |prefix| && prefix[j] == c;
    assert a.children[j] == Present(c);
  }

  /**
   A retry re-reads the comments of the failed attempt; the pipeline, shared
   across attempts, drops every re-read one, so after a partial page `p` and
   a full page `p + t` the pipeline holds each kept comment of `p + t` once.
   */
  lemma RetryAfterPartialPage(p: seq<RawComment>, t: seq<RawComment>, attempts: seq<Attempt<RawComment>>, retries: int)
    requires AttemptBound(retries) <= |attempts| && retries >= 1
    requires attempts[0] == Page(Presents(p) + [Missing])
    requires attempts[1] == Page(Presents(p + t))
    ensures DetailSessions(attempts, retries) == 2 && DetailSucceeded(attempts, retries)
    ensures Dedup(DetailAdded(attempts, retries)) == Dedup(CommentRecords(Kept(p + t)))
  {
    var c0 := attempts[0].children;
    var c1 := attempts[1].children;
    assert !Succeeds(attempts[0]) by { assert c0[|p|].Missing?; }
    assert Succeeds(attempts[1]);
    DetailFirstSuccess(attempts, retries, 1);
    PresentPrefixOfPresents(p, [Missing]);
    PresentPrefixOfPresents(p + t, []);
    assert Presents(p + t) + [] == c1;
    KeptAppend(p, t);
    CommentRecordsAppend(Kept(p), Kept(t));
    var kp := CommentRecords(Kept(p));
    var kt := CommentRecords(Kept(t));
    assert AttemptComments(attempts[0]) == kp;
    assert AttemptComments(attempts[1]) == kp + kt;
    assert CommentsUpTo(attempts, 1) == kp by {
      assert CommentsUpTo(attempts, 1) == [] + AttemptComments(attempts[0]);
    }
    assert CommentsUpTo(attempts, 2) == kp + (kp + kt);
    RetryKeepsOnce(kp, kt);
  }

  /** A "more" placeholder before a real comment is skipped. */
  lemma KeptSkipsMore(more: RawComment, alice: RawComment)
    requires more.kind == "more" && alice.kind != "more"
    ensures Kept([more, alice]) == [alice]
  {
    assert [more, alice][..1] == [more] && [more][..0] == [];
    assert Kept([more]) == [];
  }

  /**
   Two failed sessions, then a tree of a "more" placeholder and one
   comment: three sessions, success, and only the real comment added.
   */
  lemma DetailScenarioOutcome(more: RawComment, alice: RawComment)
    requires more.kind == "more" && alice.kind != "more"
    ensures var attempts := [Failed, Failed, Page([Present(more), Present(alice)])];
      && DetailSessions(attempts, 2) == 3 && DetailSucceeded(attempts, 2)
      && DetailAdded(attempts, 2) == [CommentRecord(alice)]
  {
    var page := Page([Present(more), Present(alice)]);
    PageWithMore(more, alice);
    TwoFailuresThen(page);
  }

  /** With two retries, two failed sessions and then a complete page: three sessions, and only that page's comments added. */
  lemma TwoFailuresThen(page: Attempt<RawComment>)
    requires Succeeds(page)
    ensures var attempts := [Failed, Failed, page];
      && DetailSessions(attempts, 2) == 3 && DetailSucceeded(attempts, 2)
      && DetailAdded(attempts, 2) == AttemptComments(page)
  {
    var attempts := [Failed, Failed, page];
    assert CommentsUpTo(attempts, 1) == [];
    assert CommentsUpTo(attempts, 2) == [];
    assert CommentsUpTo(attempts, 3) == [] + AttemptComments(page);
    DetailFirstSuccess(attempts, 2, 2);
  }

  /** A tree of a "more" placeholder and one comment succeeds and adds only the comment. */
  lemma PageWithMore(more: RawComment, alice: RawComment)
    requires more.kind == "more" && alice.kind != "more"
    ensures Succeeds(Page([Present(more), Present(alice)]))
    ensures AttemptComments(Page([Present(more), Present(alice)])) == [CommentRecord(alice)]
  {
    var children := [Present(more), Present(alice)];
    assert children[1..] == [Present(alice)] && children[1..][1..] == [];
    assert PresentPrefix(children) == [more, alice];
    KeptSkipsMore(more, alice);
  }

  /**
   The comments of "/r/x/comments/abc/title/" with two retries, as in
   `DetailScenarioOutcome`: the comment file is "title.csv", nothing is
   raised, and only the real comment is written.
   */
  method DetailScenario(permalink: string, more: RawComment, alice: RawComment)
    returns (pipeline: DataPipeline?, sessions: nat, raised: bool)
    requires permalink == "/r/x/comments/abc/title/"
    requires more.kind == "more" && alice.kind != "more"
    ensures pipeline != null && pipeline.csvFilename == "title" + ".csv"
    ensures sessions == 3 && !raised
    ensures pipeline.written == [CommentRecord(alice)]
  {
    RedditPermalink();
    DetailScenarioOutcome(more, alice);
    DedupSingle(CommentRecord(alice));
    var attempts := [Failed, Failed, Page([Present(more), Present(alice)])];
    pipeline, sessions, raised := ProcessPost(permalink, 2, attempts, []);
  }
}
