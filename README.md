# Blog extension model

A Dafny model of the Sphinx blog extension `exts/sphinx_blog.py`. The extension
collects blog posts while the documents are read, and renders four things from them:

- the list of recent posts;
- the archive by year;
- the index by tag;
- the Atom feed.

The model covers:

- **Posts** (`posts.dfy`):
  - the `blogpost` directive and its option converters (`_split`, `strip`);
  - `top_level_heading` and `create_tag_reference`;
  - `process_blog_posts`. It builds the index entry, stores it in the shared
    `blog_posts` dict (a class, `BlogIndex`) and builds the metadata block that
    replaces the declaration.
- **Dates** (`dates.dfy`): `datetime.strptime(s, "%Y-%m-%d")` with its lenient
  field patterns and its validity checks, and `strftime("%Y-%m-%d")`.
- **Ordering** (`ordering.dfy`): `sorted(..., key=date, reverse=...)` as a stable
  insertion sort, ascending or descending.
- **Views** (`views.dfy`): `process_blog_recent`, `process_blog_archive`,
  `process_blog_tags` and `post_bullet_list_item`. Each loop is a method, proved
  against a reference function.
- **Runs** (`runs.dfy`) and **Groups** (`groups.dfy`): generic models of the
  archive's year loop and of the tag loop's dict of lists.
- **Feed** (`feed.dfy`): the ordering of `create_feed` and its `updated` stamps,
  including the running `newest_date`.

Dates are `CalendarDate`s, the dates a Python `datetime` can hold. All timestamps
sit at midnight in the same fixed zone, so comparing two timestamps means comparing
their dates, with `Dates.Before`.

Four behaviours of the code worth knowing:

- `_split` of an empty or missing option value gives `[""]`, not an empty list.
  A `tags` option that is not written at all gives `[]`.
- The `title` option is read by the directive but never used. An entry's title is
  always the document's first heading.
- The archive of an empty index fails: its final flush appends `None`. The model
  returns `Err(EmptyArchive)` instead of rendering an empty archive.
- The tag dict is keyed by the tag as written, but a section's id uses the
  lower-cased tag. Tags that differ only in case, such as "Rust" and "rust", get two
  sections with the same id. A link to "rust" then reaches the first of them, which
  may not list the linking post (`Views.CaseCollidingTags`). When no two declared
  tags differ only in case, each link reaches its tag's own section
  (`Views.TagLinksUnique`).

## Model

| member | source | states |
|---|---|---|
| Text.Strip | exts/sphinx_blog.py:14 | `s.strip()` is the slice of `s` left after cutting whitespace from both ends, and no whitespace remains at either end |
| Text.Split | exts/sphinx_blog.py:14 | `s.split(",")` gives one more piece than there are commas, and no piece holds a comma |
| Text.JoinSplit | exts/sphinx_blog.py:14 | joining the pieces of a split with the separator gives back the string |
| Text.SplitJoin | exts/sphinx_blog.py:14 | splitting a join of comma-free pieces gives back the pieces |
| Text.Lower | exts/sphinx_blog.py:107 | lower-casing keeps the length and lowers every character in place |
| Text.Decimal | exts/sphinx_blog.py:214 | `str(year)` is a non-empty run of decimal digits with no leading zero |
| Text.DecimalRoundTrip | exts/sphinx_blog.py:214-215 | the digits of `str(n)` read back as `n` |
| Text.DecimalInjective | exts/sphinx_blog.py:214 | different years have different `str` texts |
| Posts.SplitList | exts/sphinx_blog.py:13-14 | `_split` gives commas + 1 tokens, each with no comma and no whitespace at either end; an empty or missing value gives `[""]` |
| Posts.SplitListTokens | exts/sphinx_blog.py:13-14 | the tokens are the comma-separated pieces of the value, in order, each stripped |
| Posts.ListOption | exts/sphinx_blog.py:39-40 | a list option is empty exactly when it is not written; written without a value it is `[""]`; written with a value it is `_split` of that value |
| Posts.StrippedOption | exts/sphinx_blog.py:29-30 | the `title` and `updated` converters fail exactly on a missing value; a written value gives its stripped text |
| Posts.RunPostDirective | exts/sphinx_blog.py:33-43 | the node's date is the first argument exactly when there is one; its tags and category are the list converters' results and its title and updated the strip converters' results, empty or absent when not written; the run fails exactly when a strip converter gets no value |
| Posts.TopLevelHeading | exts/sphinx_blog.py:100-103 | the first title of the document, and a failure exactly when there is none |
| Posts.CreateTagReference | exts/sphinx_blog.py:106-116 | a reference showing the tag, whose anchor is `tag-` plus the lower-cased tag and whose URI is `/tags/#` plus the anchor |
| Posts.TagLineShape | exts/sphinx_blog.py:150-159 | for n tags the Tags line holds the n references in declared order, with a `", "` between each two |
| Posts.MetadataBlock | exts/sphinx_blog.py:146-161 | the block is the date line, then a Tags line only when there are tags, then a transition |
| Posts.MetadataBlocks | exts/sphinx_blog.py:128-161 | one metadata block per post node |
| Posts.ParseUpdated | exts/sphinx_blog.py:131-133 | the `updated` text is parsed only when present, and a present text that does not parse fails |
| Posts.BuildEntryContract | exts/sphinx_blog.py:129-145 | an entry is built exactly when the dates parse and a heading exists; the title is the first heading; the dates are the parsed ones; a bad `updated` date is reported first |
| Posts.PutLookup | exts/sphinx_blog.py:135 | after `d[k] = e`, `d[k]` is `e` and every other key reads as before |
| Posts.PutNew | exts/sphinx_blog.py:135 | a new key goes at the end of the dict's order |
| Posts.PutExisting | exts/sphinx_blog.py:135 | an existing key keeps its place; only its entry changes |
| Posts.PutDocnames | exts/sphinx_blog.py:135 | the keys after a store are the old ones, plus the new key at the end if it was absent |
| Posts.PutTwice | exts/sphinx_blog.py:135 | storing twice under one key keeps only the second entry |
| Posts.PutKeepsDistinct | exts/sphinx_blog.py:135 | a store keeps each document at most once in the dict |
| Posts.BlogIndex.constructor | exts/sphinx_blog.py:120-121 | the index starts empty |
| Posts.BlogIndex.Insert | exts/sphinx_blog.py:135-145 | the index after `blog_posts[docname] = e` is the old one with the store applied, and still has distinct keys |
| Posts.DiscoverStep | exts/sphinx_blog.py:128-145 | one more post node either stores its entry or records its failure |
| Posts.DiscoverStops | exts/sphinx_blog.py:128-161 | after the first failing node, later nodes change nothing |
| Posts.DiscoverMeaning | exts/sphinx_blog.py:128-161 | discovery succeeds exactly when every node gives an entry, and then the last node's entry is stored; otherwise it fails with the first failing node's error, after storing the entry of the node before it |
| Posts.StoredInStep | exts/sphinx_blog.py:135 | storing a document's entry over its earlier one equals storing it alone |
| Posts.StorePost | exts/sphinx_blog.py:129-161 | one loop step stores the node's entry under the document, or fails with that node's error and changes nothing; on success it returns the node's metadata block |
| Posts.ProcessBlogPosts | exts/sphinx_blog.py:119-161 | the index afterwards holds the old items with the document's last good entry stored; the result fails exactly when some node fails, with the first failure; otherwise it is the metadata block of every node |
| Dates.DaysInMonth | exts/sphinx_blog.py:139 | a month has 28 to 31 days, and February has 29 exactly in leap years |
| Dates.BeforeIsStrictTotalOrder | exts/sphinx_blog.py:186-190 | comparing dates is irreflexive, transitive and total on distinct dates |
| Dates.BeforeYear | exts/sphinx_blog.py:210 | a date that is not earlier than another is in the same or a later year |
| Dates.ParseDate | exts/sphinx_blog.py:139 | `strptime(s, "%Y-%m-%d")` accepts only real dates of years 1 to 9999, written with 8 to 10 characters |
| Dates.Format | exts/sphinx_blog.py:172 | `strftime("%Y-%m-%d")` gives ten characters: digits with `-` at places 4 and 7 |
| Dates.ParseFormat | exts/sphinx_blog.py:172 | a formatted date parses back to itself |
| Dates.FormatParse | exts/sphinx_blog.py:139 | a zero-padded ten-character date that parses formats back to the same text |
| Dates.RejectedExamples | exts/sphinx_blog.py:139 | month 13 and 29 February of a common year are refused |
| Dates.RejectedEdgeExamples | exts/sphinx_blog.py:139 | year 0 and leftover characters are refused |
| Dates.AcceptedExamples | exts/sphinx_blog.py:139 | a leap day and unpadded month and day are accepted |
| Dates.SpacePaddedDayExample | exts/sphinx_blog.py:139 | a space-padded day is accepted |
| Ordering.InsertByDatePermutes | exts/sphinx_blog.py:186-190 | inserting a post adds exactly that post |
| Ordering.InsertByDateSorted | exts/sphinx_blog.py:186-190 | inserting into a date-sorted list keeps it sorted |
| Ordering.InsertByDateWithDate | exts/sphinx_blog.py:186-190 | an inserted post goes before the posts of its own date and moves no post past another of the same date |
| Ordering.SortByDatePermutes | exts/sphinx_blog.py:186-190 | the sort returns the posts of the index, each once |
| Ordering.SortByDateSorted | exts/sphinx_blog.py:186-190 | the sort returns the posts in date order, descending or ascending |
| Ordering.SortByDateStable | exts/sphinx_blog.py:186-190 | posts of the same date keep their stored order, also when the sort is reversed |
| Ordering.NewestFirst | exts/sphinx_blog.py:186-190 | in the newest-first list, of two posts with different dates the newer comes first, and only then |
| Ordering.OldestFirst | exts/sphinx_blog.py:279-282 | in the oldest-first list, of two posts with different dates the older comes first, and only then |
| Runs.AddToRuns | exts/sphinx_blog.py:212-223 | after a step the last run is open, with the key of the element just added |
| Runs.RunsOf | exts/sphinx_blog.py:204-223 | there are no runs exactly when there are no elements |
| Runs.AddToRunsFlatten | exts/sphinx_blog.py:212-223 | a step adds its element after all earlier members |
| Runs.RunsOfFlatten | exts/sphinx_blog.py:204-228 | the runs, one after another, are exactly the elements in order |
| Runs.AddToRunsKeyed | exts/sphinx_blog.py:212-223 | a step keeps every run non-empty and every member under its own key |
| Runs.RunsOfKeyed | exts/sphinx_blog.py:204-228 | every run is non-empty and every element sits in the run of its own key |
| Runs.AddToRunsDecreasing | exts/sphinx_blog.py:212-223 | a step whose key is not larger than the open run's keeps run keys strictly decreasing |
| Runs.RunsOfLast | exts/sphinx_blog.py:219 | the open run has the key of the last element |
| Runs.RunsOfDecreasing | exts/sphinx_blog.py:204-228 | over non-increasing keys, the run keys strictly decrease, so each key has one run |
| Groups.DedupMembers | exts/sphinx_blog.py:246-247 | the dict's keys are exactly the keys of the stream |
| Groups.DedupDistinct | exts/sphinx_blog.py:246-247 | each key is in the dict once |
| Groups.FirstIndex | exts/sphinx_blog.py:246-247 | the first place a key occurs in the stream |
| Groups.DedupOrder | exts/sphinx_blog.py:246-247 | the dict lists its keys in the order of their first occurrence |
| Groups.GroupAllSnoc | exts/sphinx_blog.py:245-250 | one more pair is one dict step: a new key gets an empty list, then the value goes at the end of its key's list |
| Groups.ValuesOfAbsent | exts/sphinx_blog.py:245-250 | a key that never occurs has no values |
| Groups.GroupAllMeaning | exts/sphinx_blog.py:238-252 | the dict holds each key of the stream once, in the order of first occurrence, with exactly the values paired with it, in stream order |
| Groups.ValuesOfAppend | exts/sphinx_blog.py:240-250 | the values of a key over two stretches of the stream are those of the first, then those of the second |
| Groups.ValuesOfWithValue | exts/sphinx_blog.py:245-250 | a key a post lists n times gets that post's item n times |
| Groups.FirstsWithValue | exts/sphinx_blog.py:245 | the keys one post contributes are its tags, in declared order |
| Views.PostBulletListItemShowsDate | exts/sphinx_blog.py:164-179 | the item shows the date as text that parses back to the post's date, then a space; it links to the post and shows its title |
| Views.RecentView | exts/sphinx_blog.py:182-193 | the list renders every post of the index once, newest first, with posts of one date in stored order |
| Views.SortedYears | exts/sphinx_blog.py:204-210 | in the newest-first order, years never increase |
| Views.ConcatSections | exts/sphinx_blog.py:212-228 | the year sections' lists, one after another, render the runs' posts in order |
| Views.ArchiveShape | exts/sphinx_blog.py:196-230 | the archive's lists, one after another, are exactly the recent list; section years strictly decrease; each post is under its own year |
| Views.ArchiveLoopJoin | exts/sphinx_blog.py:222-223 | a post of the open year joins the open list |
| Views.ArchiveLoopOpen | exts/sphinx_blog.py:212-220 | a post of another year flushes the open list, if any, into a section and opens a new list |
| Views.ArchiveIds | exts/sphinx_blog.py:214-215 | the archive's section ids are all different, and each section's title spells its year |
| Views.ArchiveView | exts/sphinx_blog.py:196-230 | the archive is one `year-<year>` section per run of a year in the newest-first order; it fails exactly on an empty index |
| Views.OccurrenceTags | exts/sphinx_blog.py:240-245 | the keys the tag loop visits are the posts' tags, post after post |
| Views.OccurrenceItems | exts/sphinx_blog.py:240-250 | the items filed under a tag are those of the posts with that tag, newest first, a post once per time it declares the tag |
| Views.TaggedWithMembers | exts/sphinx_blog.py:245-250 | a post is under a tag exactly when it is in the index and declares the tag; a post with no tags is under none |
| Views.AllTagsMembers | exts/sphinx_blog.py:245 | every declared tag is among the tags visited |
| Views.TagsShape | exts/sphinx_blog.py:233-261 | one section per declared tag, each once, ordered by first occurrence newest first, listing the posts with that tag |
| Views.AllTagsSource | exts/sphinx_blog.py:245 | every tag visited is declared by one of the posts |
| Views.TagLinksResolve | exts/sphinx_blog.py:253 | for every tag a post declares, some section of the tag page is titled with the tag and has the tag link's anchor as its id |
| Views.TagLinksUnique | exts/sphinx_blog.py:253 | when no two declared tags differ only in case, every section whose id is a tag link's anchor is titled with that tag and lists the posts tagged with it, the linking post among them |
| Views.CaseCollidingTags | exts/sphinx_blog.py:246-253 | a newer post tagged "Rust" and an older one tagged "rust" give two sections with the same id; the first, titled "Rust", does not list the older post |
| Views.TwoPostsNewestFirst | exts/sphinx_blog.py:240-244 | two posts, the first newer, are visited in the order given |
| Views.TwoPostsOccurrences | exts/sphinx_blog.py:245-250 | over two posts with one tag each, the loop visits those two tags in post order |
| Groups.TwoKeyGroups | exts/sphinx_blog.py:245-250 | two pairs with different keys give two groups holding one value each |
| Views.FileUnderTags | exts/sphinx_blog.py:245-250 | filing one post under its tags is the dict step for each of its (tag, item) pairs |
| Views.TagsView | exts/sphinx_blog.py:233-261 | the tag page is the dict built from all (tag, item) pairs, newest first, rendered as `tag-<lower tag>` sections in dict order |
| Feed.LatestUnique | exts/sphinx_blog.py:277-302 | the feed's `updated` stamp is determined: only one date is the latest |
| Feed.LatestPermuted | exts/sphinx_blog.py:279-282 | the latest date does not depend on the order the posts are visited in |
| Feed.NewestStep | exts/sphinx_blog.py:289-297 | one loop step keeps `newest_date` the latest publication or `updated` date seen so far |
| Feed.CreateFeed | exts/sphinx_blog.py:277-302 | the loop adds one entry per post, oldest first, with id and link the URL and `updated` the post's updated date or else its publication date; `newest_date` is absent exactly for an empty index, and is otherwise the latest publication or `updated` date |
| Feed.FeedShape | exts/sphinx_blog.py:279-300 | the loop adds one entry per post, oldest first and stable by stored order, each with its effective `updated` stamp |

## Left out

- Sphinx and docutils machinery is not modelled: directive registration (`setup`),
  node classes, `findall`, `replace_self` and source info. A document is given as
  its headings and post nodes in order, and a rendered view is returned as a value.
- The `orphan` metadata flag set by `process_blog_posts` is not modelled; it only
  affects navigation.
- Posts.ProcessBlogPosts: the post URL, `posixpath.join` of the site root and
  `get_relative_uri`, is a parameter rather than computed.
- Views.PostBulletListItemShowsDate: the item's link target is the post's document
  name; the relative URI Sphinx computes from it is not modelled.
- Feed.CreateFeed: the `FeedGenerator` object, its fixed metadata, `feed.updated`,
  serialisation with `atom_file` and `os.path.join` are left out; these are foreign
  I/O. Entries are returned in the order the loop adds them. `add_entry()` prepends
  by default, so the written feed lists the entries in the reverse of this order.
- Feed.CreateFeed: when the index is empty, `newest_date` stays `None`. The feed then
  keeps the stamp the generator took from the clock; the clock is not modelled.
- Time zones are left out: `tz.gettz("America/Vancouver")` is taken as one fixed
  zone applied to every date. The debugging `print` is left out.
- Dates.ParseDate: only ASCII digits are accepted. Python's `\d` also matches other
  Unicode decimal digits.
- Dates.Format: `%Y` is always padded to four digits. Some C libraries print years
  below 1000 with fewer digits.
- Text.Lower: only ASCII letters are lowered. Python's `str.lower` maps all of Unicode.
- Posts.BuildError: `a.strip()` on an option written without a value raises
  AttributeError, which docutils does not catch; the model records it as one error
  kind, `InvalidOption`, without the exception's text.
- Views.FileUnderTags: the inner loop of `process_blog_tags` over one post's tags is a
  separate method. The outer loop calls it once per post.
