/** The discovery pass of the blog extension: reading a post declaration,
    building its index entry, writing it into the shared index keyed by
    document name, and the metadata block that replaces the declaration. */
module Posts {
  import opened Wrappers
  import opened Text
  import opened Dates

  /** Why a build stops. Each stands for an exception the extension lets escape. */
  datatype BuildError =
    | InvalidDate(text: string)  // `strptime` raised ValueError on this text
    | MissingDate                // `strptime(None, ...)` raised TypeError: no date argument
    | MissingHeading             // `top_level_heading` found no title
    | InvalidOption              // an option converter was handed no value

  /** `a or ""`: the text an option converter splits. */
  function OptionText(a: Option<string>): string {
    if a.Some? then a.value else ""
  }

  /** `_split(a)`: the comma-separated tokens of `a`, each stripped. There is one
      more token than there are commas, so an empty or missing value gives `[""]`. */
  function SplitList(a: Option<string>): (r: seq<string>)
    ensures |r| == Count(OptionText(a), ',') + 1
    ensures OptionText(a) == [] ==> r == [[]]
    ensures forall i :: 0 <= i < |r| ==> ',' !in r[i]
    ensures forall i :: 0 <= i < |r| ==> r[i] == [] || (!IsSpace(r[i][0]) && !IsSpace(r[i][|r[i]| - 1]))
  {
    var pieces := Split(OptionText(a), ',');
    var r := seq(|pieces|, i requires 0 <= i < |pieces| => Strip(pieces[i]));
    assert forall i :: 0 <= i < |r| ==> ',' !in r[i] by {
      forall i | 0 <= i < |r|
        ensures ',' !in r[i]
      {
        StripKeeps(pieces[i], ',');
      }
    }
    r
  }

  /** The tokens of `_split(a)` are the comma-separated pieces of `a`, in order,
      each with its surrounding whitespace stripped. */
  lemma SplitListTokens(a: Option<string>)
    ensures var r := SplitList(a);
      exists pieces: seq<string> :: |pieces| == |r| && Join(pieces, ',') == OptionText(a)
        && forall i :: 0 <= i < |r| ==> r[i] == Strip(pieces[i])
  {
    JoinSplit(OptionText(a), ',');
    var pieces := Split(OptionText(a), ',');
    assert |pieces| == |SplitList(a)|;
  }

  /** The value docutils hands an option converter: `Absent` when the option is
      not written, `NoValue` (Python `None`) when it is written without a value. */
  datatype OptionValue = Absent | NoValue | Given(text: string)

  /** What a `blogpost` directive is written with. */
  datatype Declaration = Declaration(
    arguments: seq<string>,
    tags: OptionValue,
    category: OptionValue,
    title: OptionValue,
    updated: OptionValue)

  /** The attributes the directive stores on its post node. */
  datatype PostNode = PostNode(
    date: Option<string>,
    tags: seq<string>,
    category: seq<string>,
    title: Option<string>,
    updated: Option<string>)

  /** The `tags` and `category` options: `_split` on a written option, `[]` by default. */
  function ListOption(v: OptionValue): (r: seq<string>)
    ensures r == [] <==> v.Absent?
    ensures v.NoValue? ==> r == [[]]
    ensures v.Given? ==> r == SplitList(Some(v.text))
  {
    match v
    case Absent => []
    case NoValue => SplitList(None)
    case Given(t) => SplitList(Some(t))
  }

  /** The `title` and `updated` options: `a.strip()`, which fails on a missing value. */
  function StrippedOption(v: OptionValue): (r: Result<Option<string>, BuildError>)
    ensures r.Err? <==> v.NoValue?
    ensures r.Ok? ==> (r.value.Some? <==> v.Given?)
    ensures v.Given? ==> r == Ok(Some(Strip(v.text)))
  {
    match v
    case Absent => Ok(None)
    case NoValue => Err(InvalidOption)
    case Given(t) => Ok(Some(Strip(t)))
  }

  /** `BlogPostDirective.run`: the node's date is the first argument if there is one;
      a list option that is not written is empty, one written without value is `[""]`. */
  function RunPostDirective(decl: Declaration): (r: Result<PostNode, BuildError>)
    ensures r.Ok? <==> !decl.title.NoValue? && !decl.updated.NoValue?
    ensures r.Ok? ==> (r.value.date.Some? <==> decl.arguments != [])
    ensures r.Ok? && decl.arguments != [] ==> r.value.date.value == decl.arguments[0]
    ensures r.Ok? ==> (r.value.tags == [] <==> decl.tags.Absent?)
    ensures r.Ok? ==> (r.value.category == [] <==> decl.category.Absent?)
    ensures r.Ok? ==> (r.value.updated.Some? <==> decl.updated.Given?)
    ensures r.Ok? ==> && r.value.tags == ListOption(decl.tags)
                      && r.value.category == ListOption(decl.category)
                      && Ok(r.value.title) == StrippedOption(decl.title)
                      && Ok(r.value.updated) == StrippedOption(decl.updated)
  {
    match StrippedOption(decl.title)
    case Err(e) => Err(e)
    case Ok(title) =>
      match StrippedOption(decl.updated)
      case Err(e) => Err(e)
      case Ok(updated) =>
        Ok(PostNode(
          if decl.arguments != [] then Some(decl.arguments[0]) else None,
          ListOption(decl.tags),
          ListOption(decl.category),
          title,
          updated))
  }

  /** A parsed document: the texts of its title nodes in document order, and its
      post nodes in document order. */
  datatype Document = Document(headings: seq<string>, posts: seq<PostNode>)

  /** `top_level_heading`: the first title of the document, or a failure. */
  function TopLevelHeading(headings: seq<string>): (r: Result<string, BuildError>)
    ensures r.Ok? <==> headings != []
    ensures r.Ok? ==> r.value == headings[0]
    ensures r.Err? ==> r.error == MissingHeading
  {
    if headings == [] then Err(MissingHeading) else Ok(headings[0])
  }

  /** Inline content of the metadata block. */
  datatype Inline =
    | Plain(text: string)
    | Reference(refuri: string, anchor: string, text: string)

  datatype Block = Paragraph(inlines: seq<Inline>) | Transition

  /** The anchor of the tag index section for `tag`. */
  function TagAnchor(tag: string): string {
    "tag-" + Lower(tag)
  }

  /** `create_tag_reference`: a link shown as the tag itself, to the tag's section
      of the `/tags/` page. */
  function CreateTagReference(tag: string): (r: Inline)
    ensures r.Reference? && r.text == tag
    ensures r.refuri == "/tags/#" + r.anchor && r.anchor == TagAnchor(tag)
  {
    Reference("/tags/#" + TagAnchor(tag), TagAnchor(tag), tag)
  }

  /** The references of the Tags line with the separators between them: the
      reference of every tag, and ", " before each one but the first. */
  function TagLine(tags: seq<string>): seq<Inline> {
    if tags == [] then []
    else if |tags| == 1 then [CreateTagReference(tags[0])]
    else TagLine(tags[..|tags| - 1]) + [Plain(", "), CreateTagReference(tags[|tags| - 1])]
  }

  /** For n tags the line holds the n references in declared order, at the even
      places, and n - 1 separators, at the odd places. */
  lemma {:induction false} TagLineShape(tags: seq<string>)
    requires tags != []
    ensures |TagLine(tags)| == 2 * |tags| - 1
    ensures forall k :: 0 <= k < |tags| ==> TagLine(tags)[2 * k] == CreateTagReference(tags[k])
    ensures forall k :: 0 <= k < |tags| - 1 ==> TagLine(tags)[2 * k + 1] == Plain(", ")
  {
    if |tags| > 1 {
      var init := tags[..|tags| - 1];
      TagLineShape(init);
      assert forall k :: 0 <= k < |init| ==> init[k] == tags[k];
    }
  }

  /** The block a post declaration is replaced with: the date line with the date as
      written, a Tags line only when there are tags, and a closing transition. */
  function MetadataBlockOf(datePretty: string, tags: seq<string>): seq<Block> {
    [Paragraph([Plain("Date: " + datePretty)])]
    + (if tags == [] then [] else [Paragraph([Plain("Tags: ")] + TagLine(tags))])
    + [Transition]
  }

  /** `blocks` is the metadata block that replaces the post node `node`. */
  predicate BlockOf(blocks: seq<Block>, node: PostNode) {
    node.date.Some? && blocks == MetadataBlockOf(node.date.value, node.tags)
  }

  /** The metadata blocks of a document's post nodes, one per node, in order. */
  function MetadataBlocks(nodes: seq<PostNode>): (r: seq<seq<Block>>)
    ensures |r| == |nodes|
  {
    if nodes == [] then []
    else
      var last := nodes[|nodes| - 1];
      MetadataBlocks(nodes[..|nodes| - 1]) + [MetadataBlockOf(OptionText(last.date), last.tags)]
  }

  /** Builds the metadata block, putting a separator before every tag but the first. */
  method MetadataBlock(datePretty: string, tags: seq<string>) returns (blocks: seq<Block>)
    ensures blocks == MetadataBlockOf(datePretty, tags)
  {
    blocks := [Paragraph([Plain("Date: " + datePretty)])];
    if |tags| > 0 {
      var inlines := [Plain("Tags: ")];
      var first := true;
      for i := 0 to |tags|
        invariant first <==> i == 0
        invariant inlines == [Plain("Tags: ")] + TagLine(tags[..i])
      {
        if !first {
          inlines := inlines + [Plain(", ")];
        }
        first := false;
        inlines := inlines + [CreateTagReference(tags[i])];
        assert tags[..i + 1][..i] == tags[..i];
      }
      assert tags[..|tags|] == tags;
      blocks := blocks + [Paragraph(inlines)];
    }
    blocks := blocks + [Transition];
  }

  /** One entry of the index. The `title` option of the declaration is not kept. */
  datatype Entry = Entry(
    title: string,
    tags: seq<string>,
    category: seq<string>,
    date: CalendarDate,
    url: string,
    updated: Option<CalendarDate>)

  /** An index entry together with the document it belongs to: one item of `blog_posts.items()`. */
  datatype Post = Post(docname: string, entry: Entry)

  /** The `updated` option, parsed only when it is present. */
  function ParseUpdated(updated: Option<string>): (r: Result<Option<CalendarDate>, BuildError>)
    ensures r.Ok? <==> (updated.Some? ==> ParseDate(updated.value).Some?)
    ensures r.Ok? ==> (r.value.Some? <==> updated.Some?)
    ensures r.Ok? && updated.Some? ==> r.value == ParseDate(updated.value)
  {
    match updated
    case None => Ok(None)
    case Some(s) =>
      match ParseDate(s)
      case None => Err(InvalidDate(s))
      case Some(d) => Ok(Some(d))
  }

  /** The entry `process_blog_posts` stores for one post node, its parts evaluated
      in the order `process_blog_posts` evaluates them: the `updated` date, the
      title, then the published date. */
  function BuildEntry(headings: seq<string>, node: PostNode, url: string): (r: Result<Entry, BuildError>)
  {
    match ParseUpdated(node.updated)
    case Err(e) => Err(e)
    case Ok(updated) =>
      match TopLevelHeading(headings)
      case Err(e) => Err(e)
      case Ok(title) =>
        if node.date.None? then Err(MissingDate)
        else
          match ParseDate(node.date.value)
          case None => Err(InvalidDate(node.date.value))
          case Some(date) => Ok(Entry(title, node.tags, node.category, date, url, updated))
  }

  /** A post node gives an entry exactly when its dates parse and the document has
      a heading. The entry's title is always the first heading, whatever the
      `title` option says; its dates are the parsed ones; its tags, category and
      URL are the node's. A bad `updated` date is reported before anything else. */
  lemma BuildEntryContract(headings: seq<string>, node: PostNode, url: string)
    ensures var r := BuildEntry(headings, node, url);
      && (r.Ok? <==>
          && (node.updated.Some? ==> ParseDate(node.updated.value).Some?)
          && headings != []
          && node.date.Some? && ParseDate(node.date.value).Some?)
      && (r.Ok? ==>
          && r.value.title == headings[0]
          && Some(r.value.date) == ParseDate(node.date.value)
          && (r.value.updated.Some? <==> node.updated.Some?)
          && (node.updated.Some? ==> r.value.updated == ParseDate(node.updated.value))
          && r.value.tags == node.tags && r.value.category == node.category && r.value.url == url)
      && (node.updated.Some? && ParseDate(node.updated.value).None? ==> r == Err(InvalidDate(node.updated.value)))
      && (node.date.None? && (node.updated.Some? ==> ParseDate(node.updated.value).Some?) && headings != [] ==> r == Err(MissingDate))
  {
  }

  /** The documents that have an entry among `items`, in order. */
  function Docnames(items: seq<Post>): (r: seq<string>)
    ensures |r| == |items| && forall i :: 0 <= i < |items| ==> r[i] == items[i].docname
  {
    seq(|items|, i requires 0 <= i < |items| => items[i].docname)
  }

  /** Each document has at most one entry: the keys of a dict. */
  predicate DistinctDocs(items: seq<Post>) {
    forall i, j :: 0 <= i < j < |items| ==> items[i].docname != items[j].docname
  }

  /** `d.get(docname)` on a dict whose items, in insertion order, are `items`. */
  function Lookup(items: seq<Post>, docname: string): Option<Entry> {
    if items == [] then None
    else if items[0].docname == docname then Some(items[0].entry)
    else Lookup(items[1..], docname)
  }

  /** `d[docname] = e`: an existing key keeps its place and gets the new entry,
      a new key goes to the end. */
  function Put(items: seq<Post>, docname: string, e: Entry): seq<Post> {
    if items == [] then [Post(docname, e)]
    else if items[0].docname == docname then [Post(docname, e)] + items[1..]
    else [items[0]] + Put(items[1..], docname, e)
  }

  /** After `d[docname] = e`, `d[docname]` is `e` and every other key reads as before. */
  lemma {:induction false} PutLookup(items: seq<Post>, docname: string, e: Entry, other: string)
    ensures Lookup(Put(items, docname, e), other) == if other == docname then Some(e) else Lookup(items, other)
  {
    if items != [] && items[0].docname != docname {
      PutLookup(items[1..], docname, e, other);
    }
  }

  /** A new key goes to the end. */
  lemma {:induction false} PutNew(items: seq<Post>, docname: string, e: Entry)
    requires docname !in Docnames(items)
    ensures Put(items, docname, e) == items + [Post(docname, e)]
  {
    if items != [] {
      assert Docnames(items[1..]) == Docnames(items)[1..];
      PutNew(items[1..], docname, e);
      assert items == [items[0]] + items[1..];
    }
  }

  /** An existing key keeps its place: only its entry changes. */
  lemma {:induction false} PutExisting(items: seq<Post>, docname: string, e: Entry, i: nat)
    requires DistinctDocs(items) && i < |items| && items[i].docname == docname
    ensures Put(items, docname, e) == items[i := Post(docname, e)]
  {
    if i > 0 {
      PutExisting(items[1..], docname, e, i - 1);
    }
  }

  /** The keys after `d[docname] = e`: the old ones, and `docname` at the end if it is new. */
  lemma {:induction false} PutDocnames(items: seq<Post>, docname: string, e: Entry)
    ensures Docnames(Put(items, docname, e))
      == if docname in Docnames(items) then Docnames(items) else Docnames(items) + [docname]
  {
    if items != [] {
      var rest := items[1..];
      assert items == [items[0]] + rest;
      DocnamesCons(items[0], rest);
      PutDocnames(rest, docname, e);
      if items[0].docname == docname {
        DocnamesCons(Post(docname, e), rest);
      } else {
        DocnamesCons(items[0], Put(rest, docname, e));
      }
    }
  }

  lemma DocnamesCons(p: Post, items: seq<Post>)
    ensures Docnames([p] + items) == [p.docname] + Docnames(items)
  {
  }

  /** Storing twice under the same key keeps only the second entry. */
  lemma {:induction false} PutTwice(items: seq<Post>, docname: string, a: Entry, b: Entry)
    ensures Put(Put(items, docname, a), docname, b) == Put(items, docname, b)
  {
    if items != [] && items[0].docname != docname {
      PutTwice(items[1..], docname, a, b);
    }
  }

  /** `d[docname] = e` keeps the keys distinct. */
  lemma {:induction false} PutKeepsDistinct(items: seq<Post>, docname: string, e: Entry)
    requires DistinctDocs(items)
    ensures DistinctDocs(Put(items, docname, e))
  {
    PutDocnames(items, docname, e);
    var r := Put(items, docname, e);
    var before := Docnames(items);
    forall i, j | 0 <= i < j < |r|
      ensures r[i].docname != r[j].docname
    {
      assert Docnames(r)[i] == r[i].docname && Docnames(r)[j] == r[j].docname;
      if docname !in before && j == |items| {
        assert before[i] == items[i].docname;
      }
    }
  }

  /** The shared `blog_posts` dict of the build environment, as the sequence of its
      items: Python dicts remember the order in which keys were first inserted. */
  class BlogIndex {
    var items: seq<Post>

    ghost predicate Valid()
      reads this
    {
      DistinctDocs(items)
    }

    /** The empty dict created on the first document. */
    constructor ()
      ensures Valid() && items == []
    {
      items := [];
    }

    /** `blog_posts[docname] = e`. */
    method Insert(docname: string, e: Entry)
      requires Valid()
      modifies this
      ensures Valid()
      ensures items == Put(old(items), docname, e)
    {
      PutKeepsDistinct(items, docname, e);
      items := Put(items, docname, e);
    }
  }

  /** Where the discovery of one document stands after its first `n` post nodes:
      the entry stored last, if any, and the failure that stopped it, if any. */
  datatype Progress = Progress(stored: Option<Entry>, failure: Option<BuildError>)

  /** The post nodes are processed in order and the first failure stops the rest. */
  function Discover(headings: seq<string>, nodes: seq<PostNode>, url: string, n: nat): (p: Progress)
    requires n <= |nodes|
  {
    if n == 0 then Progress(None, None)
    else
      var p := Discover(headings, nodes, url, n - 1);
      if p.failure.Some? then p
      else
        match BuildEntry(headings, nodes[n - 1], url)
        case Err(e) => Progress(p.stored, Some(e))
        case Ok(e) => Progress(Some(e), None)
  }

  /** One more node: its entry is stored, or its failure recorded. */
  lemma DiscoverStep(headings: seq<string>, nodes: seq<PostNode>, url: string, i: nat)
    requires i < |nodes| && Discover(headings, nodes, url, i).failure.None?
    ensures var b := BuildEntry(headings, nodes[i], url);
      Discover(headings, nodes, url, i + 1)
      == if b.Ok? then Progress(Some(b.value), None)
         else Progress(Discover(headings, nodes, url, i).stored, Some(b.error))
  {
  }

  /** Once a node has failed, the nodes after it change nothing. */
  lemma {:induction false} DiscoverStops(headings: seq<string>, nodes: seq<PostNode>, url: string, k: nat, n: nat)
    requires k <= n <= |nodes|
    requires Discover(headings, nodes, url, k).failure.Some?
    ensures Discover(headings, nodes, url, n) == Discover(headings, nodes, url, k)
    decreases n
  {
    if n > k {
      DiscoverStops(headings, nodes, url, k, n - 1);
    }
  }

  /** Discovery succeeds exactly when every node gives an entry, and then the entry
      stored is the last node's; otherwise it fails with the first failing node's
      error, after storing the entry of the node just before it, if any. */
  lemma {:induction false} DiscoverMeaning(headings: seq<string>, nodes: seq<PostNode>, url: string, n: nat)
    requires n <= |nodes|
    ensures var p := Discover(headings, nodes, url, n);
      && (p.failure.None? <==> forall k :: 0 <= k < n ==> BuildEntry(headings, nodes[k], url).Ok?)
      && (p.failure.None? && n > 0 ==> p.stored == Some(BuildEntry(headings, nodes[n - 1], url).value))
      && (p.failure.None? && n == 0 ==> p.stored.None?)
      && (p.failure.Some? ==> exists k :: (0 <= k < n
            && (forall j :: 0 <= j < k ==> BuildEntry(headings, nodes[j], url).Ok?)
            && BuildEntry(headings, nodes[k], url) == Err(p.failure.value)
            && p.stored == (if k == 0 then None else Some(BuildEntry(headings, nodes[k - 1], url).value))))
    decreases n
  {
    if n > 0 {
      DiscoverMeaning(headings, nodes, url, n - 1);
      var p := Discover(headings, nodes, url, n - 1);
      if p.failure.None? && BuildEntry(headings, nodes[n - 1], url).Err? {
        var k := n - 1;
        assert forall j :: 0 <= j < k ==> BuildEntry(headings, nodes[j], url).Ok?;
      }
    }
  }

  /** The items `process_blog_posts` leaves behind: the old ones with the entry
      stored last under `docname`, if any. */
  function StoredIn(items: seq<Post>, docname: string, p: Progress): seq<Post> {
    if p.stored.Some? then Put(items, docname, p.stored.value) else items
  }

  /** Storing an entry over what was stored before is the same as storing it alone. */
  lemma StoredInStep(items: seq<Post>, docname: string, p: Progress, q: Progress)
    requires q.stored.Some?
    ensures Put(StoredIn(items, docname, p), docname, q.stored.value) == StoredIn(items, docname, q)
  {
    if p.stored.Some? {
      PutTwice(items, docname, p.stored.value, q.stored.value);
    }
  }

  /** The body of the loop of `process_blog_posts` for the post node `nodes[i]`, all
      nodes before it having given entries: its entry is stored under `docname`,
      replacing any earlier one, and the node's metadata block is returned. A node
      whose entry cannot be built changes nothing. `items0` are the items before
      the first node. */
  method StorePost(index: BlogIndex, docname: string, headings: seq<string>, nodes: seq<PostNode>, i: nat, url: string,
                   ghost items0: seq<Post>)
    returns (r: Result<seq<Block>, BuildError>)
    requires i < |nodes| && Discover(headings, nodes, url, i).failure.None?
    requires index.Valid() && index.items == StoredIn(items0, docname, Discover(headings, nodes, url, i))
    modifies index
    ensures index.Valid()
    ensures var p := Discover(headings, nodes, url, i + 1);
      && index.items == StoredIn(items0, docname, p)
      && (r.Ok? <==> p.failure.None?)
      && (r.Err? ==> r.error == p.failure.value)
      && (r.Ok? ==> BlockOf(r.value, nodes[i]))
  {
    DiscoverStep(headings, nodes, url, i);
    var built := BuildEntry(headings, nodes[i], url);
    if built.Err? {
      return Err(built.error);
    }
    StoredInStep(items0, docname, Discover(headings, nodes, url, i), Discover(headings, nodes, url, i + 1));
    index.Insert(docname, built.value);
    var block := MetadataBlock(nodes[i].date.value, nodes[i].tags);
    r := Ok(block);
  }

  /** `process_blog_posts` for the document `docname`, whose URL is `url`: every post
      node in turn gets its entry stored under `docname` (so the last one wins) and
      is replaced by its metadata block. The first node whose entry cannot be built
      stops the build, with the entries of the nodes before it already stored. */
  method ProcessBlogPosts(index: BlogIndex, docname: string, doc: Document, url: string)
    returns (r: Result<seq<seq<Block>>, BuildError>)
    requires index.Valid()
    modifies index
    ensures index.Valid()
    ensures var p := Discover(doc.headings, doc.posts, url, |doc.posts|);
      && index.items == StoredIn(old(index.items), docname, p)
      && (r.Err? <==> p.failure.Some?)
      && (r.Err? ==> r.error == p.failure.value)
      && (r.Ok? ==> r.value == MetadataBlocks(doc.posts))
  {
    ghost var items0 := index.items;
    var blocks: seq<seq<Block>> := [];
    var i := 0;
    while i < |doc.posts|
      invariant i <= |doc.posts| && Discover(doc.headings, doc.posts, url, i).failure.None?
      invariant index.Valid() && index.items == StoredIn(items0, docname, Discover(doc.headings, doc.posts, url, i))
      invariant blocks == MetadataBlocks(doc.posts[..i])
    {
      var stored := StorePost(index, docname, doc.headings, doc.posts, i, url, items0);
      if stored.Err? {
        DiscoverStops(doc.headings, doc.posts, url, i + 1, |doc.posts|);
        return Err(stored.error);
      }
      assert doc.posts[..i + 1][..i] == doc.posts[..i];
      blocks := blocks + [stored.value];
      i := i + 1;
    }
    assert doc.posts[..i] == doc.posts;
    r := Ok(blocks);
  }
}
