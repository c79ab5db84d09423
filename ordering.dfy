/** The order in which the blog lists its posts: `sorted(blog_posts.items(),
    key=lambda item: item[1]["date"], reverse=...)`. Python's sort is stable, and
    stays stable when `reverse=True`: posts with the same date keep the order in
    which they were first stored. */
module Ordering {
  import opened Dates
  import opened Posts

  /** `a` sorts strictly ahead of `b`: it is earlier when ascending, later when descending. */
  predicate Ahead(a: Date, b: Date, descending: bool) {
    if descending then Before(b, a) else Before(a, b)
  }

  /** No post sorts strictly ahead of a post listed before it. */
  predicate SortedBy(s: seq<Post>, descending: bool) {
    forall i, j :: 0 <= i < j < |s| ==> !Ahead(s[j].entry.date, s[i].entry.date, descending)
  }

  /** `x` is put before the first post that does not sort strictly ahead of it, so
      it stays before the posts of its own date. */
  function InsertByDate(x: Post, s: seq<Post>, descending: bool): seq<Post> {
    if s == [] || !Ahead(s[0].entry.date, x.entry.date, descending) then [x] + s
    else [s[0]] + InsertByDate(x, s[1..], descending)
  }

  /** `sorted(s, key=date, reverse=descending)`. */
  function SortByDate(s: seq<Post>, descending: bool): seq<Post> {
    if s == [] then [] else InsertByDate(s[0], SortByDate(s[1..], descending), descending)
  }

  /** The posts of `s` whose date is `d`, in the order of `s`. */
  function WithDate(s: seq<Post>, d: Date): seq<Post> {
    if s == [] then []
    else (if s[0].entry.date == d then [s[0]] else []) + WithDate(s[1..], d)
  }

  lemma {:induction false} InsertByDatePermutes(x: Post, s: seq<Post>, descending: bool)
    ensures multiset(InsertByDate(x, s, descending)) == multiset(s) + multiset{x}
  {
    if s != [] && Ahead(s[0].entry.date, x.entry.date, descending) {
      InsertByDatePermutes(x, s[1..], descending);
      assert s == [s[0]] + s[1..];
    }
  }

  lemma {:induction false} InsertByDateSorted(x: Post, s: seq<Post>, descending: bool)
    requires SortedBy(s, descending)
    ensures SortedBy(InsertByDate(x, s, descending), descending)
  {
    var r := InsertByDate(x, s, descending);
    if s == [] || !Ahead(s[0].entry.date, x.entry.date, descending) {
      forall j | 1 <= j < |r|
        ensures !Ahead(r[j].entry.date, x.entry.date, descending)
      {
        assert r[j] == s[j - 1];
        if j > 1 {
          assert !Ahead(s[j - 1].entry.date, s[0].entry.date, descending);
        }
      }
    } else {
      var t := InsertByDate(x, s[1..], descending);
      InsertByDateSorted(x, s[1..], descending);
      InsertByDatePermutes(x, s[1..], descending);
      forall j | 0 <= j < |t|
        ensures !Ahead(t[j].entry.date, s[0].entry.date, descending)
      {
        assert t[j] in multiset(s[1..]) + multiset{x};
        if t[j] != x {
          var k :| 0 <= k < |s[1..]| && s[1..][k] == t[j];
          assert s[k + 1] == t[j];
        }
      }
      assert r == [s[0]] + t;
    }
  }

  /** Inserting `x` adds it in front of the posts of its date and moves no other post
      past one of the same date. */
  lemma {:induction false} InsertByDateWithDate(x: Post, s: seq<Post>, descending: bool, d: Date)
    ensures WithDate(InsertByDate(x, s, descending), d)
      == (if x.entry.date == d then [x] else []) + WithDate(s, d)
  {
    if s == [] || !Ahead(s[0].entry.date, x.entry.date, descending) {
    } else {
      InsertByDateWithDate(x, s[1..], descending, d);
      assert s[0].entry.date != x.entry.date;
    }
  }

  /** The sort returns the posts it was given, each once. */
  lemma {:induction false} SortByDatePermutes(s: seq<Post>, descending: bool)
    ensures multiset(SortByDate(s, descending)) == multiset(s)
    ensures |SortByDate(s, descending)| == |s|
  {
    if s != [] {
      SortByDatePermutes(s[1..], descending);
      InsertByDatePermutes(s[0], SortByDate(s[1..], descending), descending);
      assert s == [s[0]] + s[1..];
    }
  }

  /** The sort returns its posts in date order. */
  lemma {:induction false} SortByDateSorted(s: seq<Post>, descending: bool)
    ensures SortedBy(SortByDate(s, descending), descending)
  {
    if s != [] {
      SortByDateSorted(s[1..], descending);
      InsertByDateSorted(s[0], SortByDate(s[1..], descending), descending);
    }
  }

  /** The sort is stable: posts of the same date keep their order. */
  lemma {:induction false} SortByDateStable(s: seq<Post>, descending: bool, d: Date)
    ensures WithDate(SortByDate(s, descending), d) == WithDate(s, d)
  {
    if s != [] {
      SortByDateStable(s[1..], descending, d);
      InsertByDateWithDate(s[0], SortByDate(s[1..], descending), descending, d);
    }
  }

  /** In a list sorted newest first, of two posts with different dates the newer
      one is listed first, and a post listed first is never older. */
  lemma NewestFirst(r: seq<Post>, i: nat, j: nat)
    requires SortedBy(r, true) && i < |r| && j < |r|
    requires r[i].entry.date != r[j].entry.date
    ensures i < j <==> Before(r[j].entry.date, r[i].entry.date)
  {
    if i < j {
      assert !Before(r[i].entry.date, r[j].entry.date);
    } else if j < i {
      assert !Before(r[j].entry.date, r[i].entry.date);
    }
  }

  /** In a list sorted oldest first, of two posts with different dates the older
      one is listed first. */
  lemma OldestFirst(r: seq<Post>, i: nat, j: nat)
    requires SortedBy(r, false) && i < |r| && j < |r|
    requires r[i].entry.date != r[j].entry.date
    ensures i < j <==> Before(r[i].entry.date, r[j].entry.date)
  {
    if i < j {
      assert !Before(r[j].entry.date, r[i].entry.date);
    } else if j < i {
      assert !Before(r[i].entry.date, r[j].entry.date);
    }
  }
}
