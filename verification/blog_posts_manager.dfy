/** The blog post editor (`BlogPostForm` in `src/pages/admin/BlogPostsManager.tsx`): the form
    filled from a stored post or with a new post's defaults, the payload a save writes, and
    deletion by id. Date formatting (`format(new Date(d), "yyyy-MM-dd")`) and today's date are
    parameters. */
module BlogPostsManager {
  import opened Wrappers
  import opened Text
  import Store
  import opened AdminForms

  /** A row of the `blog_posts` table. */
  datatype BlogPost = BlogPost(
    id: string, title: string, slug: string, date: string, author: string,
    excerpt: string, contentHtml: string, tags: Option<seq<string>>, status: Option<string>,
    locale: Option<string>, createdAt: Option<string>, updatedAt: Option<string>)

  datatype BlogPostForm = BlogPostForm(
    title: string, slug: string, date: string, author: string, tags: string,
    excerpt: string, contentHtml: string, status: string)

  /** What a save writes: no id, no timestamps. */
  datatype BlogPostPayload = BlogPostPayload(
    title: string, slug: string, date: string, author: string, tags: seq<string>,
    excerpt: string, contentHtml: string, status: string)

  function TagsText(tags: Option<seq<string>>): string {
    ListText(tags, ", ")
  }

  /** The tags written: split on ",", trimmed, empty entries dropped. */
  function TagsPayload(text: string): (xs: seq<string>)
    ensures forall x | x in xs :: CleanEntry(x, ',')
  {
    ListPayload(text, ',')
  }

  /** The form for `post`, or for a new post dated today. */
  function InitialForm(post: Option<BlogPost>, formatDate: string -> string, today: string)
    : (f: BlogPostForm)
    ensures post.None? ==> f == BlogPostForm("", "", today, "", "", "", "", "draft")
    ensures post.Some? ==> var p := post.value;
      && f.title == p.title && f.slug == p.slug && f.author == p.author
      && f.excerpt == p.excerpt && f.contentHtml == p.contentHtml
      && f.date == (if p.date != "" then formatDate(p.date) else today)
      && f.tags == TagsText(p.tags) && f.status == OrElse(p.status, "draft")
  {
    match post
    case None => BlogPostForm("", "", today, "", "", "", "", "draft")
    case Some(p) =>
      BlogPostForm(p.title, p.slug, if p.date != "" then formatDate(p.date) else today,
                   p.author, TagsText(p.tags), p.excerpt, p.contentHtml,
                   OrElse(p.status, "draft"))
  }

  /** The payload: every text input copied verbatim, the tags read as a list. */
  function PayloadOf(f: BlogPostForm): (p: BlogPostPayload)
    ensures p.title == f.title && p.slug == f.slug && p.date == f.date && p.author == f.author
    ensures p.excerpt == f.excerpt && p.contentHtml == f.contentHtml && p.status == f.status
    ensures forall x | x in p.tags :: CleanEntry(x, ',')
    ensures p.tags == TagsPayload(f.tags)
  {
    BlogPostPayload(f.title, f.slug, f.date, f.author, TagsPayload(f.tags), f.excerpt,
                    f.contentHtml, f.status)
  }

  function IdOf(post: Option<BlogPost>): Option<string> {
    match post
    case Some(p) => Some(p.id)
    case None => None
  }

  /** A save: an update of the edited post's row, or an insert for a new one. */
  function Submit(post: Option<BlogPost>, f: BlogPostForm): (w: Store.Write<BlogPostPayload>)
    ensures w.Update? <==> post.Some?
    ensures w.Update? ==> w.id == post.value.id
    ensures w.row == PayloadOf(f)
  {
    Store.Save(IdOf(post), PayloadOf(f))
  }

  /** Clean tags shown in the form and saved again are unchanged. */
  lemma TagsRoundTrip(xs: seq<string>)
    requires forall x | x in xs :: CleanEntry(x, ',')
    ensures TagsPayload(TagsText(Some(xs))) == xs
  {
    assert ", " == [','] + " " && AllSpace(" ");
    ListRoundTrip(Some(xs), ',', " ");
  }

  /** A new post is a draft dated today; saved untouched it has no tags. */
  lemma NewPostDefaults(formatDate: string -> string, today: string)
    ensures var f := InitialForm(None, formatDate, today);
      f.status == "draft" && f.date == today && f.title == "" && f.tags == ""
    ensures PayloadOf(InitialForm(None, formatDate, today)).tags == []
  {
    assert Split("", ',') == [""];
    assert TrimEach([""]) == [""];
  }

  /** Opening a stored post and saving it untouched writes back its text fields and its tags;
      the date goes through the formatter, a missing status becomes "draft". */
  lemma UntouchedSave(p: BlogPost, formatDate: string -> string, today: string)
    requires p.tags.Some? ==> forall x | x in p.tags.value :: CleanEntry(x, ',')
    ensures var w := PayloadOf(InitialForm(Some(p), formatDate, today));
      && w.title == p.title && w.slug == p.slug && w.author == p.author
      && w.excerpt == p.excerpt && w.contentHtml == p.contentHtml
      && w.tags == p.tags.GetOr([])
      && (p.date != "" ==> w.date == formatDate(p.date))
      && w.status == OrElse(p.status, "draft")
  {
    var f := InitialForm(Some(p), formatDate, today);
    assert f.tags == TagsText(p.tags);
    StoredTagsRoundTrip(p.tags);
  }

  /** The tags of a stored post, shown and read back: the list itself, or none when missing. */
  lemma StoredTagsRoundTrip(tags: Option<seq<string>>)
    requires tags.Some? ==> forall x | x in tags.value :: CleanEntry(x, ',')
    ensures TagsPayload(TagsText(tags)) == tags.GetOr([])
  {
    assert ", " == [','] + " " && AllSpace(" ");
    ListRoundTrip(tags, ',', " ");
  }
}
