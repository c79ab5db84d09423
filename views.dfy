/** The pages the blog renders from the index once every document has been read:
    the list of recent posts, the archive by year and the index by tag. Each is a
    bullet list of the posts newest first, as `sorted(..., reverse=True)` gives them. */
module Views {
  import opened Wrappers
  import opened Text
  import opened Dates
  import opened Posts
  import opened Ordering
  import opened Runs
  import opened Sequences
  import opened Groups

  /** A bullet-list item: a paragraph holding the date and a space, then a link to
      the post shown as the post's title. `target` is the document linked to. */
  datatype ListItem = ListItem(dateText: string, target: string, title: string)

  /** `post_bullet_list_item`: the date as `%Y-%m-%d` followed by a space, and a
      link to the post. */
  function PostBulletListItem(p: Post): ListItem {
    ListItem(Format(p.entry.date) + " ", p.docname, p.entry.title)
  }

  /** The item shows the post's date, which reads back as that date, then a space;
      it links to the post's document and shows the post's title. */
  lemma PostBulletListItemShowsDate(p: Post)
    ensures var item := PostBulletListItem(p);
      && |item.dateText| == 11 && item.dateText[10] == ' '
      && ParseDate(item.dateText[..10]) == Some(p.entry.date)
      && item.target == p.docname && item.title == p.entry.title
  {
    assert PostBulletListItem(p).dateText[..10] == Format(p.entry.date);
    ParseFormat(p.entry.date);
  }

  /** The items of `posts`, in order. */
  function RenderAll(posts: seq<Post>): seq<ListItem> {
    seq(|posts|, i requires 0 <= i < |posts| => PostBulletListItem(posts[i]))
  }

  lemma RenderAllAppend(a: seq<Post>, b: seq<Post>)
    ensures RenderAll(a + b) == RenderAll(a) + RenderAll(b)
  {
  }

  lemma RenderAllSnoc(s: seq<Post>, p: Post)
    ensures RenderAll(s + [p]) == RenderAll(s) + [PostBulletListItem(p)]
  {
  }

  /** The posts newest first; posts of the same date in the order they were stored. */
  function RecentOrder(items: seq<Post>): seq<Post> {
    SortByDate(items, true)
  }

  /** `process_blog_recent` for one `blogrecent` node: the bullet list of every post
      of the index, newest first. The posts listed are those of the index, each
      once; they are in date order, and posts of one date keep the order in which
      they were stored. */
  method RecentView(index: BlogIndex) returns (list: seq<ListItem>)
    ensures list == RenderAll(RecentOrder(index.items))
    ensures multiset(RecentOrder(index.items)) == multiset(index.items)
    ensures SortedBy(RecentOrder(index.items), true)
    ensures forall d :: WithDate(RecentOrder(index.items), d) == WithDate(index.items, d)
  {
    var sorted := RecentOrder(index.items);
    SortByDatePermutes(index.items, true);
    SortByDateSorted(index.items, true);
    forall d
      ensures WithDate(sorted, d) == WithDate(index.items, d)
    {
      SortByDateStable(index.items, true, d);
    }
    list := [];
    for i := 0 to |sorted|
      invariant list == RenderAll(sorted[..i])
    {
      TakeSnoc(sorted, i);
      RenderAllSnoc(sorted[..i], sorted[i]);
      list := list + [PostBulletListItem(sorted[i])];
    }
    TakeAll(sorted);
  }

  /** A section of a page: its anchor id, its title and its bullet list. */
  datatype Section = Section(id: string, title: string, items: seq<ListItem>)

  /** The year of a post's date: the key the archive groups by. */
  function YearOf(p: Post): nat {
    p.entry.date.year
  }

  /** Posts sorted newest first never have a larger year than a post before them. */
  lemma {:induction false} SortedYears(s: seq<Post>)
    requires SortedBy(s, true)
    ensures NonIncreasing(s, YearOf)
  {
    forall i, j | 0 <= i < j < |s|
      ensures YearOf(s[i]) >= YearOf(s[j])
    {
      assert !Ahead(s[j].entry.date, s[i].entry.date, true);
      BeforeYear(s[j].entry.date, s[i].entry.date);
    }
  }

  /** The section of one year: anchor `year-<year>`, titled with the year. */
  function YearSection(year: nat, list: seq<ListItem>): Section {
    Section("year-" + Decimal(year), Decimal(year), list)
  }

  /** The sections of the runs, in order. */
  function YearSections(runs: seq<Run<Post>>): seq<Section> {
    seq(|runs|, k requires 0 <= k < |runs| => YearSection(runs[k].key, RenderAll(runs[k].members)))
  }

  lemma YearSectionsSnoc(runs: seq<Run<Post>>)
    requires runs != []
    ensures YearSections(runs) == YearSections(runs[..|runs| - 1])
      + [YearSection(runs[|runs| - 1].key, RenderAll(runs[|runs| - 1].members))]
  {
  }

  /** The lists of the sections, one after another. */
  function Concat(sections: seq<Section>): seq<ListItem> {
    if sections == [] then [] else Concat(sections[..|sections| - 1]) + sections[|sections| - 1].items
  }

  lemma ConcatSnoc(sections: seq<Section>, s: Section)
    ensures Concat(sections + [s]) == Concat(sections) + s.items
  {
    assert (sections + [s])[..|sections|] == sections;
  }

  /** The lists of the sections of some runs, one after another, list the runs'
      posts in order. */
  lemma {:induction false} ConcatSections(runs: seq<Run<Post>>)
    ensures Concat(YearSections(runs)) == RenderAll(Flatten(runs))
    decreases |runs|, 1
  {
    if runs != [] {
      var front, y := runs[..|runs| - 1], runs[|runs| - 1];
      assert runs == front + [y];
      ConcatSectionsSnoc(front, y);
    }
  }

  lemma {:induction false} ConcatSectionsSnoc(front: seq<Run<Post>>, y: Run<Post>)
    ensures Concat(YearSections(front + [y])) == RenderAll(Flatten(front + [y]))
    decreases |front| + 1, 0
  {
    ConcatSections(front);
    var last := YearSection(y.key, RenderAll(y.members));
    assert YearSections(front + [y]) == YearSections(front) + [last];
    ConcatSnoc(YearSections(front), last);
    FlattenSnoc(front, y);
    RenderAllAppend(Flatten(front), y.members);
  }

  /** The archive of a page. Its sections, one after another, list exactly the
      recent posts in the same order; the years of the sections strictly decrease,
      so no year has two sections; and every post is listed under its own year. */
  lemma ArchiveShape(items: seq<Post>)
    ensures var runs := RunsOf(RecentOrder(items), YearOf);
      && Concat(YearSections(runs)) == RenderAll(RecentOrder(items))
      && KeysDecreasing(runs)
      && Keyed(runs, YearOf)
  {
    var s := RecentOrder(items);
    RunsOfFlatten(s, YearOf);
    ConcatSections(RunsOf(s, YearOf));
    SortByDateSorted(items, true);
    SortedYears(s);
    RunsOfDecreasing(s, YearOf);
    RunsOfKeyed(s, YearOf);
  }

  /** Why rendering the archive fails: its final flush appended `None` to the
      archive, which raises. */
  datatype ArchiveError = EmptyArchive

  /** The anchors of the archive's sections differ, and each section's title spells
      its year: `str(year)` never gives two years the same text. */
  lemma ArchiveIds(items: seq<Post>)
    ensures var runs := RunsOf(RecentOrder(items), YearOf);
      var sections := YearSections(runs);
      && (forall i, j :: 0 <= i < j < |sections| ==> sections[i].id != sections[j].id)
      && (forall k :: 0 <= k < |sections| ==> DecimalValue(sections[k].title) == runs[k].key)
  {
    var runs := RunsOf(RecentOrder(items), YearOf);
    var sections := YearSections(runs);
    ArchiveShape(items);
    forall i, j | 0 <= i < j < |sections|
      ensures sections[i].id != sections[j].id
    {
      if sections[i].id == sections[j].id {
        var a, b := Decimal(runs[i].key), Decimal(runs[j].key);
        assert ("year-" + a)[5..] == a && ("year-" + b)[5..] == b;
        DecimalInjective(runs[i].key, runs[j].key);
        assert false;
      }
    }
    forall k | 0 <= k < |sections|
      ensures DecimalValue(sections[k].title) == runs[k].key
    {
      DecimalRoundTrip(runs[k].key);
    }
  }

  /** The loop's state after the runs `runs`: the finished sections, and the year
      and list of the open run. */
  ghost predicate ArchiveLoop(runs: seq<Run<Post>>, archive: seq<Section>, year: Option<nat>,
                              yearList: Option<seq<ListItem>>)
  {
    if runs == [] then archive == [] && year.None? && yearList.None?
    else
      && archive == YearSections(runs[..|runs| - 1])
      && year == Some(runs[|runs| - 1].key)
      && yearList == Some(RenderAll(runs[|runs| - 1].members))
  }

  /** A post of the open run's year joins the open list. */
  lemma ArchiveLoopJoin(runs: seq<Run<Post>>, archive: seq<Section>, list: seq<ListItem>, p: Post)
    requires ArchiveLoop(runs, archive, Some(YearOf(p)), Some(list))
    ensures ArchiveLoop(AddToRuns(runs, YearOf(p), p), archive, Some(YearOf(p)),
                        Some(list + [PostBulletListItem(p)]))
  {
    var r := AddToRuns(runs, YearOf(p), p);
    var last := runs[|runs| - 1];
    assert r[..|r| - 1] == runs[..|runs| - 1];
    assert r[|r| - 1].members == last.members + [p];
    assert RenderAll(last.members + [p]) == RenderAll(last.members) + [PostBulletListItem(p)];
  }

  /** A post of another year closes the open list, if any, into a section and opens
      a list of its own. */
  lemma ArchiveLoopOpen(runs: seq<Run<Post>>, archive: seq<Section>, year: Option<nat>,
                        yearList: Option<seq<ListItem>>, p: Post)
    requires ArchiveLoop(runs, archive, year, yearList) && year != Some(YearOf(p))
    ensures ArchiveLoop(AddToRuns(runs, YearOf(p), p),
                        (if yearList.Some? then archive + [YearSection(year.value, yearList.value)] else archive),
                        Some(YearOf(p)), Some([PostBulletListItem(p)]))
  {
    var r := AddToRuns(runs, YearOf(p), p);
    assert r[..|r| - 1] == runs;
    assert r[|r| - 1].members == [p];
    assert RenderAll([p]) == [PostBulletListItem(p)];
    if runs != [] {
      YearSectionsSnoc(runs);
    }
  }

  /** `process_blog_archive` for one `blogarchive` node: the posts newest first, one
      section per run of a year, each section flushed when the next year starts and
      the last one after the loop. An empty index makes the final flush append
      `None` to the section, which fails. */
  method ArchiveView(index: BlogIndex) returns (r: Result<seq<Section>, ArchiveError>)
    ensures r.Err? <==> index.items == []
    ensures r.Err? ==> r.error == EmptyArchive
    ensures r.Ok? ==> r.value == YearSections(RunsOf(RecentOrder(index.items), YearOf))
  {
    var sorted := RecentOrder(index.items);
    SortByDatePermutes(index.items, true);
    var archive: seq<Section> := [];
    var year: Option<nat> := None;
    var yearList: Option<seq<ListItem>> := None;
    for i := 0 to |sorted|
      invariant ArchiveLoop(RunsOf(sorted[..i], YearOf), archive, year, yearList)
    {
      var post := sorted[i];
      var postYear := post.entry.date.year;
      ghost var done := sorted[..i];
      ghost var before := RunsOf(done, YearOf);
      TakeSnoc(sorted, i);
      RunsOfSnoc(done, post, YearOf);
      if year != Some(postYear) {
        ArchiveLoopOpen(before, archive, year, yearList, post);
        if yearList.Some? {
          archive := archive + [YearSection(year.value, yearList.value)];
        }
        year := Some(postYear);
        yearList := Some([]);
        AppendToEmpty([PostBulletListItem(post)]);
      } else {
        ArchiveLoopJoin(before, archive, yearList.value, post);
      }
      yearList := Some(yearList.value + [PostBulletListItem(post)]);
    }
    TakeAll(sorted);
    if yearList.None? {
      return Err(EmptyArchive);
    }
    YearSectionsSnoc(RunsOf(sorted, YearOf));
    archive := archive + [YearSection(year.value, yearList.value)];
    r := Ok(archive);
  }

  /** The (tag, item) pairs the tag loop visits for one post: one per tag the post
      declares, in declared order, each with the post's item. */
  function TagPairs(p: Post): seq<(string, ListItem)> {
    WithValue(p.entry.tags, PostBulletListItem(p))
  }

  /** The pairs the tag loop visits over `posts`, in visiting order. */
  function Occurrences(posts: seq<Post>): seq<(string, ListItem)> {
    if posts == [] then [] else Occurrences(posts[..|posts| - 1]) + TagPairs(posts[|posts| - 1])
  }

  lemma OccurrencesSnoc(posts: seq<Post>, p: Post)
    ensures Occurrences(posts + [p]) == Occurrences(posts) + TagPairs(p)
  {
    assert (posts + [p])[..|posts|] == posts;
  }

  /** Every tag the posts declare, post after post, in declared order. */
  function AllTags(posts: seq<Post>): seq<string> {
    if posts == [] then [] else AllTags(posts[..|posts| - 1]) + posts[|posts| - 1].entry.tags
  }

  lemma AllTagsSnoc(posts: seq<Post>, p: Post)
    ensures AllTags(posts + [p]) == AllTags(posts) + p.entry.tags
  {
    assert (posts + [p])[..|posts|] == posts;
  }

  /** The posts listed under `tag`: every post once for each time it declares the tag. */
  function TaggedWith(posts: seq<Post>, tag: string): seq<Post> {
    if posts == [] then []
    else
      var p := posts[|posts| - 1];
      TaggedWith(posts[..|posts| - 1], tag) + seq(multiset(p.entry.tags)[tag], _ => p)
  }

  lemma TaggedWithSnoc(posts: seq<Post>, p: Post, tag: string)
    ensures TaggedWith(posts + [p], tag) == TaggedWith(posts, tag) + seq(multiset(p.entry.tags)[tag], _ => p)
  {
    assert (posts + [p])[..|posts|] == posts;
  }

  /** The keys the tag loop visits are the declared tags. */
  lemma {:induction false} OccurrenceTags(posts: seq<Post>)
    ensures Firsts(Occurrences(posts)) == AllTags(posts)
    decreases |posts|, 1
  {
    if posts != [] {
      var init, p := posts[..|posts| - 1], posts[|posts| - 1];
      assert posts == init + [p];
      OccurrenceTagsSnoc(init, p);
    }
  }

  lemma {:induction false} OccurrenceTagsSnoc(init: seq<Post>, p: Post)
    ensures Firsts(Occurrences(init + [p])) == AllTags(init + [p])
    decreases |init| + 1, 0
  {
    OccurrenceTags(init);
    OccurrencesSnoc(init, p);
    AllTagsSnoc(init, p);
    FirstsAppend(Occurrences(init), TagPairs(p));
    FirstsWithValue(p.entry.tags, PostBulletListItem(p));
  }

  /** The items filed under `tag` are those of the posts tagged with it, newest
      first, a post once for each time it declares the tag. */
  lemma {:induction false} OccurrenceItems(posts: seq<Post>, tag: string)
    ensures ValuesOf(Occurrences(posts), tag) == RenderAll(TaggedWith(posts, tag))
    decreases |posts|, 1
  {
    if posts != [] {
      var init, p := posts[..|posts| - 1], posts[|posts| - 1];
      assert posts == init + [p];
      OccurrenceItemsSnoc(init, p, tag);
    }
  }

  lemma {:induction false} OccurrenceItemsSnoc(init: seq<Post>, p: Post, tag: string)
    ensures ValuesOf(Occurrences(init + [p]), tag) == RenderAll(TaggedWith(init + [p], tag))
    decreases |init| + 1, 0
  {
    OccurrenceItems(init, tag);
    OccurrencesSnoc(init, p);
    TaggedWithSnoc(init, p, tag);
    ValuesOfAppend(Occurrences(init), TagPairs(p), tag);
    ValuesOfWithValue(p.entry.tags, PostBulletListItem(p), tag);
    var copies := seq(multiset(p.entry.tags)[tag], _ => p);
    RenderAllAppend(TaggedWith(init, tag), copies);
    assert RenderAll(copies) == seq(multiset(p.entry.tags)[tag], _ => PostBulletListItem(p));
  }

  /** A post is listed under `tag` exactly when it is one of the posts and declares
      the tag; a post without tags is listed under none. */
  lemma {:induction false} TaggedWithMembers(posts: seq<Post>, tag: string, p: Post)
    ensures p in TaggedWith(posts, tag) <==> p in posts && tag in p.entry.tags
    decreases |posts|, 1
  {
    if posts != [] {
      var init, q := posts[..|posts| - 1], posts[|posts| - 1];
      assert posts == init + [q];
      TaggedWithMembersSnoc(init, q, tag, p);
    }
  }

  lemma {:induction false} TaggedWithMembersSnoc(init: seq<Post>, q: Post, tag: string, p: Post)
    ensures p in TaggedWith(init + [q], tag) <==> p in init + [q] && tag in p.entry.tags
    decreases |init| + 1, 0
  {
    TaggedWithMembers(init, tag, p);
    TaggedWithSnoc(init, q, tag);
    var copies := seq(multiset(q.entry.tags)[tag], _ => q);
    assert p in copies <==> p == q && tag in q.entry.tags by {
      if p == q && tag in q.entry.tags {
        assert copies[0] == q;
      }
    }
  }

  /** A declared tag occurs among the tags of the posts. */
  lemma {:induction false} AllTagsMembers(posts: seq<Post>, p: Post, tag: string)
    requires p in posts && tag in p.entry.tags
    ensures tag in AllTags(posts)
    decreases |posts|, 1
  {
    var init, q := posts[..|posts| - 1], posts[|posts| - 1];
    assert posts == init + [q];
    AllTagsSnoc(init, q);
    if p != q {
      AllTagsMembers(init, p, tag);
    }
  }

  /** A tag the posts declare is declared by one of them. */
  lemma {:induction false} AllTagsSource(posts: seq<Post>, tag: string)
    requires tag in AllTags(posts)
    ensures exists q :: q in posts && tag in q.entry.tags
    decreases |posts|
  {
    var init, q := posts[..|posts| - 1], posts[|posts| - 1];
    assert posts == init + [q];
    AllTagsSnoc(init, q);
    if tag !in q.entry.tags {
      AllTagsSource(init, tag);
      var r :| r in init && tag in r.entry.tags;
      assert r in posts;
    }
  }

  /** The section of one tag: anchor `tag-<tag in lower case>`, titled with the tag. */
  function TagSection(g: Group<string, ListItem>): Section {
    Section("tag-" + Lower(g.key), g.key, g.values)
  }

  /** The sections of the tags, in the dictionary's order. */
  function TagSections(groups: seq<Group<string, ListItem>>): seq<Section> {
    seq(|groups|, k requires 0 <= k < |groups| => TagSection(groups[k]))
  }

  lemma TagSectionsSnoc(groups: seq<Group<string, ListItem>>, g: Group<string, ListItem>)
    ensures TagSections(groups + [g]) == TagSections(groups) + [TagSection(g)]
  {
  }

  /** The tag page of an index. It has one section per tag that any post declares,
      each tag once, in the order in which the tags first occur when the posts are
      read newest first; the section of a tag lists the posts tagged with it, newest
      first, a post once for each time it declares the tag. */
  lemma TagsShape(items: seq<Post>)
    ensures var s := RecentOrder(items);
      var g := GroupAll(Occurrences(s));
      && Distinct(Keys(g))
      && (forall i :: 0 <= i < |g| ==> g[i].key in AllTags(s))
      && (forall t :: t in AllTags(s) ==> t in Keys(g))
      && (forall i, j :: 0 <= i < j < |g| ==> FirstIndex(AllTags(s), g[i].key) < FirstIndex(AllTags(s), g[j].key))
      && (forall i :: 0 <= i < |g| ==> g[i].values == RenderAll(TaggedWith(s, g[i].key)))
  {
    var s := RecentOrder(items);
    GroupAllMeaning(Occurrences(s));
    OccurrenceTags(s);
    forall t
      ensures ValuesOf(Occurrences(s), t) == RenderAll(TaggedWith(s, t))
    {
      OccurrenceItems(s, t);
    }
  }

  /** Every tag link in a post's metadata block leads to a section of the tag page:
      the anchor `create_tag_reference` builds is the id of the section of that tag. */
  lemma TagLinksResolve(items: seq<Post>, p: Post, tag: string)
    requires p in items && tag in p.entry.tags
    ensures var sections := TagSections(GroupAll(Occurrences(RecentOrder(items))));
      exists k :: 0 <= k < |sections| && sections[k].id == CreateTagReference(tag).anchor
        && sections[k].title == tag
  {
    var s := RecentOrder(items);
    SortByDatePermutes(items, true);
    assert p in multiset(s);
    AllTagsMembers(s, p, tag);
    OccurrenceTags(s);
    GroupAllMeaning(Occurrences(s));
    var g := GroupAll(Occurrences(s));
    var k :| 0 <= k < |Keys(g)| && Keys(g)[k] == tag;
    assert TagSections(g)[k].id == CreateTagReference(tag).anchor;
  }

  /** No two different tags the posts declare are the same in lower case. */
  predicate CaseDistinct(items: seq<Post>) {
    forall q, r, a, b ::
      (q in items && r in items && a in q.entry.tags && b in r.entry.tags && Lower(a) == Lower(b)) ==> a == b
  }

  /** When no two declared tags differ only in case, the section a tag link points
      to is the tag's own section: every section whose id is the link's anchor is
      titled with the tag and lists the posts tagged with it, the linking post
      among them. */
  lemma TagLinksUnique(items: seq<Post>, p: Post, tag: string)
    requires p in items && tag in p.entry.tags && CaseDistinct(items)
    ensures var s := RecentOrder(items);
      var sections := TagSections(GroupAll(Occurrences(s)));
      forall k :: 0 <= k < |sections| && sections[k].id == CreateTagReference(tag).anchor ==>
        && sections[k].title == tag
        && sections[k].items == RenderAll(TaggedWith(s, tag))
        && PostBulletListItem(p) in sections[k].items
  {
    var s := RecentOrder(items);
    SortByDatePermutes(items, true);
    var g := GroupAll(Occurrences(s));
    var sections := TagSections(g);
    GroupAllMeaning(Occurrences(s));
    OccurrenceTags(s);
    TaggedWithMembers(s, tag, p);
    assert p in multiset(s);
    var tagged := TaggedWith(s, tag);
    var i :| 0 <= i < |tagged| && tagged[i] == p;
    assert RenderAll(tagged)[i] == PostBulletListItem(p);
    forall k | 0 <= k < |sections| && sections[k].id == CreateTagReference(tag).anchor
      ensures sections[k].title == tag && sections[k].items == RenderAll(tagged)
    {
      var key := g[k].key;
      assert ("tag-" + Lower(key))[4..] == Lower(key);
      assert ("tag-" + Lower(tag))[4..] == Lower(tag);
      AllTagsSource(s, key);
      var q :| q in s && key in q.entry.tags;
      assert q in multiset(s);
      OccurrenceItems(s, key);
    }
  }

  /** Tags that differ only in case get two sections with the same id: a post
      tagged "rust" links to the anchor of the section of a newer post's "Rust",
      which does not list it. */
  lemma CaseCollidingTags(newer: Post, older: Post)
    requires newer.entry.tags == ["Rust"] && older.entry.tags == ["rust"]
    requires Before(older.entry.date, newer.entry.date) && newer.docname != older.docname
    ensures var sections := TagSections(GroupAll(Occurrences(RecentOrder([newer, older]))));
      && |sections| == 2
      && sections[0].id == sections[1].id == CreateTagReference("rust").anchor
      && sections[0].title == "Rust"
      && PostBulletListItem(older) !in sections[0].items
  {
    TwoPostsNewestFirst(newer, older);
    TwoPostsOccurrences(newer, older);
    var i1, i2 := PostBulletListItem(newer), PostBulletListItem(older);
    assert i1.target != i2.target;
    assert "Rust" != "rust" by {
      assert "Rust"[0] != "rust"[0];
    }
    TwoKeyGroups("Rust", "rust", i1, i2);
    var g := [Group("Rust", [i1]), Group("rust", [i2])];
    SameLower();
    assert TagSections(g)[0] == Section(TagAnchor("Rust"), "Rust", [i1]);
    assert TagSections(g)[1] == Section(TagAnchor("rust"), "rust", [i2]);
  }

  lemma SameLower()
    ensures Lower("Rust") == Lower("rust")
  {
    assert "Rust"[1..] == "rust"[1..];
  }

  /** Two posts, the first newer, are listed in the order given. */
  lemma TwoPostsNewestFirst(newer: Post, older: Post)
    requires Before(older.entry.date, newer.entry.date)
    ensures RecentOrder([newer, older]) == [newer, older]
  {
    assert [newer, older][1..] == [older] && [older][1..] == [];
    assert SortByDate([older], true) == [older];
    BeforeIsStrictTotalOrder(older.entry.date, newer.entry.date, older.entry.date);
  }

  /** The tag loop over two posts of one tag each visits those two tags. */
  lemma TwoPostsOccurrences(p: Post, q: Post)
    requires |p.entry.tags| == 1 && |q.entry.tags| == 1
    ensures Occurrences([p, q])
      == [(p.entry.tags[0], PostBulletListItem(p)), (q.entry.tags[0], PostBulletListItem(q))]
  {
    OccurrencesSnoc([p], q);
    OccurrencesSnoc([], p);
    assert [p] == [] + [p];
  }

  /** The inner loop of `process_blog_tags`: for each tag of `post`, the tag gets an
      empty list the first time it is met, then the post's item at the end of its
      list. `seen` is what the loop has visited so far. */
  method FileUnderTags(tags: seq<Group<string, ListItem>>, post: Post, ghost seen: seq<(string, ListItem)>)
    returns (tags': seq<Group<string, ListItem>>)
    requires tags == GroupAll(seen)
    ensures tags' == GroupAll(seen + TagPairs(post))
  {
    tags' := tags;
    ghost var pairs := TagPairs(post);
    AppendTakeNone(seen, pairs);
    for j := 0 to |post.entry.tags|
      invariant tags' == GroupAll(seen + pairs[..j])
    {
      var tag := post.entry.tags[j];
      var item := PostBulletListItem(post);
      TakeSnoc(pairs, j);
      AppendSnoc(seen, pairs[..j], (tag, item));
      GroupAllSnoc(seen + pairs[..j], tag, item);
      if tag !in Keys(tags') {
        tags' := tags' + [Group(tag, [])];
      }
      tags' := AppendTo(tags', tag, item);
    }
    TakeAll(pairs);
  }

  /** `process_blog_tags` for one `blogtags` node: the posts newest first, each filed
      under each of its tags; then one section per tag, in the dictionary's order,
      with the id `tag-<tag in lower case>`, the tag as its title and the tag's list. */
  method TagsView(index: BlogIndex) returns (sections: seq<Section>)
    ensures sections == TagSections(GroupAll(Occurrences(RecentOrder(index.items))))
  {
    var sorted := RecentOrder(index.items);
    var tags: seq<Group<string, ListItem>> := [];
    for i := 0 to |sorted|
      invariant tags == GroupAll(Occurrences(sorted[..i]))
    {
      var post := sorted[i];
      tags := FileUnderTags(tags, post, Occurrences(sorted[..i]));
      TakeSnoc(sorted, i);
      OccurrencesSnoc(sorted[..i], post);
    }
    TakeAll(sorted);
    sections := [];
    for k := 0 to |tags|
      invariant sections == TagSections(tags[..k])
    {
      TakeSnoc(tags, k);
      TagSectionsSnoc(tags[..k], tags[k]);
      sections := sections + [TagSection(tags[k])];
    }
    TakeAll(tags);
  }
}
