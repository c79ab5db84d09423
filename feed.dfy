/** The Atom feed of the blog, as `create_feed` fills it: the loop adds one entry
    per post, oldest first, and keeps the feed's own `updated` stamp, the latest
    date that any post was published or updated. Every date is a midnight in the
    one fixed zone the feed uses, so comparing two stamps is comparing their
    dates. */
module Feed {
  import opened Wrappers
  import opened Dates
  import opened Posts
  import opened Ordering
  import opened Sequences

  /** One feed entry: its id and link are the post's URL. */
  datatype FeedEntry = FeedEntry(id: string, link: string, title: string,
                                 published: CalendarDate, updated: CalendarDate)

  /** The entry's `updated` stamp: the post's `updated` date when it has one, and
      its publication date otherwise. */
  function EffectiveUpdated(e: Entry): CalendarDate {
    if e.updated.Some? then e.updated.value else e.date
  }

  /** The entry the loop adds for one post. */
  function EntryOf(p: Post): FeedEntry {
    FeedEntry(p.entry.url, p.entry.url, p.entry.title, p.entry.date, EffectiveUpdated(p.entry))
  }

  /** The entries of `posts`, in order. */
  function EntriesOf(posts: seq<Post>): seq<FeedEntry> {
    seq(|posts|, i requires 0 <= i < |posts| => EntryOf(posts[i]))
  }

  lemma EntriesOfSnoc(posts: seq<Post>, p: Post)
    ensures EntriesOf(posts + [p]) == EntriesOf(posts) + [EntryOf(p)]
  {
  }

  /** `d` is a date of `p`: its publication date or its `updated` date. */
  predicate StampOf(p: Post, d: Date) {
    d == p.entry.date || p.entry.updated == Some(d)
  }

  /** No date of `p` is later than `d`. */
  predicate NotLaterThan(p: Post, d: Date) {
    !Before(d, p.entry.date) && (p.entry.updated.Some? ==> !Before(d, p.entry.updated.value))
  }

  /** `d` is the latest date of the posts: no date of theirs is later, and one of
      them has it. */
  predicate Latest(posts: seq<Post>, d: Date) {
    && (forall k :: 0 <= k < |posts| ==> NotLaterThan(posts[k], d))
    && (exists k :: 0 <= k < |posts| && StampOf(posts[k], d))
  }

  /** There is only one latest date. */
  lemma LatestUnique(posts: seq<Post>, d: Date, e: Date)
    requires Latest(posts, d) && Latest(posts, e)
    ensures d == e
  {
    var k :| 0 <= k < |posts| && StampOf(posts[k], d);
    var m :| 0 <= m < |posts| && StampOf(posts[m], e);
    assert NotLaterThan(posts[k], e) && NotLaterThan(posts[m], d);
    BeforeIsStrictTotalOrder(d, e, d);
  }

  /** The latest date does not depend on the order of the posts. */
  lemma LatestPermuted(s: seq<Post>, t: seq<Post>, d: Date)
    requires multiset(s) == multiset(t) && Latest(s, d)
    ensures Latest(t, d)
  {
    forall k | 0 <= k < |t|
      ensures NotLaterThan(t[k], d)
    {
      assert t[k] in multiset(s);
      var j :| 0 <= j < |s| && s[j] == t[k];
    }
    var k :| 0 <= k < |s| && StampOf(s[k], d);
    assert s[k] in multiset(t);
    var j :| 0 <= j < |t| && t[j] == s[k];
  }

  /** The running `newest_date` after one more post: the post's publication date
      when there was none yet, and then whichever of it, the post's publication
      date and its `updated` date is the latest. */
  lemma NewestStep(done: seq<Post>, newest: Option<Date>, p: Post, next: Date)
    requires newest.None? <==> done == []
    requires newest.Some? ==> Latest(done, newest.value)
    requires var n := if newest.None? then p.entry.date else newest.value;
      var n' := if Before(n, p.entry.date) then p.entry.date else n;
      next == if p.entry.updated.Some? && Before(n', p.entry.updated.value) then p.entry.updated.value else n'
    ensures Latest(done + [p], next)
  {
    var s := done + [p];
    assert s[|done|] == p;
    var n := if newest.None? then p.entry.date else newest.value;
    var n' := if Before(n, p.entry.date) then p.entry.date else n;
    BeforeIsStrictTotalOrder(n, p.entry.date, n');
    if p.entry.updated.Some? {
      BeforeIsStrictTotalOrder(n', p.entry.updated.value, next);
    }
    forall k | 0 <= k < |s|
      ensures NotLaterThan(s[k], next)
    {
      if k < |done| {
        assert s[k] == done[k];
        assert NotLaterThan(done[k], newest.value);
        BeforeIsStrictTotalOrder(next, newest.value, s[k].entry.date);
        BeforeIsStrictTotalOrder(n', newest.value, next);
        if s[k].entry.updated.Some? {
          BeforeIsStrictTotalOrder(next, newest.value, s[k].entry.updated.value);
        }
      }
    }
    if StampOf(p, next) {
      assert StampOf(s[|done|], next);
    } else {
      var k :| 0 <= k < |done| && StampOf(done[k], newest.value);
      assert s[k] == done[k];
    }
  }

  /** The ordering and the `updated` stamps of `create_feed`: the loop visits the
      posts oldest first, posts of one date in the order they were stored, and adds
      for each an entry whose `updated` is its effective one; the running
      `newest_date` follows every publication and `updated` date. Without posts it
      stays `None`, and the feed keeps the stamp it was created with. */
  method CreateFeed(index: BlogIndex) returns (entries: seq<FeedEntry>, newest: Option<Date>)
    ensures entries == EntriesOf(SortByDate(index.items, false))
    ensures newest.None? <==> index.items == []
    ensures newest.Some? ==> Latest(index.items, newest.value)
  {
    var sorted := SortByDate(index.items, false);
    SortByDatePermutes(index.items, false);
    entries := [];
    newest := None;
    for i := 0 to |sorted|
      invariant entries == EntriesOf(sorted[..i])
      invariant newest.None? <==> i == 0
      invariant newest.Some? ==> Latest(sorted[..i], newest.value)
    {
      var post := sorted[i];
      ghost var before := newest;
      TakeSnoc(sorted, i);
      EntriesOfSnoc(sorted[..i], post);
      var published := post.entry.date;
      if newest.None? {
        newest := Some(published);
      }
      if Before(newest.value, published) {
        newest := Some(published);
      }
      var updated: Date;
      if post.entry.updated.Some? {
        var u := post.entry.updated.value;
        if Before(newest.value, u) {
          newest := Some(u);
        }
        updated := u;
      } else {
        updated := published;
      }
      NewestStep(sorted[..i], before, post, newest.value);
      entries := entries + [FeedEntry(post.entry.url, post.entry.url, post.entry.title, published, updated)];
    }
    TakeAll(sorted);
    if newest.Some? {
      LatestPermuted(sorted, index.items, newest.value);
    }
  }

  /** The loop adds one entry per post of the index, oldest first, and posts of
      one date in the order they were stored; each entry's `updated` stamp is the
      post's `updated` date if it has one, and its publication date otherwise. */
  lemma FeedShape(items: seq<Post>)
    ensures var entries := EntriesOf(SortByDate(items, false));
      && |entries| == |items|
      && multiset(SortByDate(items, false)) == multiset(items)
      && (forall i, j :: 0 <= i < j < |entries| ==> !Before(entries[j].published, entries[i].published))
      && (forall i :: 0 <= i < |entries| ==>
            entries[i].updated == (if SortByDate(items, false)[i].entry.updated.Some?
                                   then SortByDate(items, false)[i].entry.updated.value
                                   else entries[i].published))
      && (forall d :: WithDate(SortByDate(items, false), d) == WithDate(items, d))
  {
    SortByDatePermutes(items, false);
    SortByDateSorted(items, false);
    forall d
      ensures WithDate(SortByDate(items, false), d) == WithDate(items, d)
    {
      SortByDateStable(items, false, d);
    }
  }
}
