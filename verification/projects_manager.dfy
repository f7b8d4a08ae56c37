/** The project editor (`ProjectForm` in `src/pages/admin/ProjectsManager.tsx`): the form
    filled from a stored project, or the defaults for a new one, and the payload a save
    writes. The payload type has no `id`, `created_at` or `updated_at`: a save never writes
    them. */
module ProjectsManager {
  import opened Wrappers
  import opened Text
  import Numbers
  import Store
  import opened AdminForms

  /** A row of the `projects` table (nullable columns are options). */
  datatype Project = Project(
    id: string, name: string, slug: string, summary: Option<string>,
    fullDescription: Option<string>, category: Option<string>, stack: Option<seq<string>>,
    url: Option<string>, domain: Option<string>, repoUrl: Option<string>,
    thumbnail: Option<string>, status: Option<string>, visibility: Option<string>,
    year: Option<int>, createdAt: Option<string>, updatedAt: Option<string>)

  /** The form's inputs, all text. */
  datatype ProjectForm = ProjectForm(
    name: string, slug: string, summary: string, fullDescription: string, category: string,
    stack: string, url: string, domain: string, repoUrl: string, thumbnail: string,
    status: string, visibility: string, year: string)

  /** What a save writes. */
  datatype ProjectPayload = ProjectPayload(
    name: string, slug: string, summary: string, fullDescription: Option<string>,
    category: string, stack: seq<string>, url: Option<string>, domain: Option<string>,
    repoUrl: Option<string>, thumbnail: string, status: string, visibility: Option<string>,
    year: Option<int>)

  /** The stack input: the entries joined by ", ", empty when there are none. */
  function StackText(stack: Option<seq<string>>): string {
    ListText(stack, ", ")
  }

  /** The stack written: split on ",", trimmed, empty entries dropped. */
  function StackPayload(text: string): (xs: seq<string>)
    ensures forall x | x in xs :: CleanEntry(x, ',')
  {
    ListPayload(text, ',')
  }

  /** The year input: the number's decimal text, or empty when there is none. */
  function YearText(year: Option<int>): (s: string)
    ensures s == "" <==> year.None?
  {
    match year
    case Some(n) => Numbers.IntToString(n)
    case None => ""
  }

  /** The year written: `null` for an empty input, otherwise `parseInt` of the text (`NaN`,
      which is stored as `null`, is `None`). */
  function YearPayload(text: string): (y: Option<int>)
    ensures text == "" ==> y.None?
    ensures text != "" ==> y == Numbers.ParseInt(text)
  {
    if text == "" then None else Numbers.ParseInt(text)
  }

  /** The form shows a stored project: its name and slug, each nullable text column or the
      empty string, the status and visibility or their defaults, the stack and the year as
      text. */
  predicate Shows(f: ProjectForm, p: Project) {
    && f.name == p.name && f.slug == p.slug
    && f.summary == OrEmpty(p.summary) && f.fullDescription == OrEmpty(p.fullDescription)
    && f.category == OrEmpty(p.category) && f.url == OrEmpty(p.url)
    && f.domain == OrEmpty(p.domain) && f.repoUrl == OrEmpty(p.repoUrl)
    && f.thumbnail == OrEmpty(p.thumbnail)
    && f.status == OrElse(p.status, "draft") && f.visibility == OrElse(p.visibility, "Public")
    && f.stack == StackText(p.stack) && f.year == YearText(p.year)
  }

  /** The form for `project`, or for a new project when there is none. */
  function InitialForm(project: Option<Project>): (f: ProjectForm)
    ensures project.None? ==>
              f == ProjectForm("", "", "", "", "", "", "", "", "", "", "draft", "Public", "")
    ensures project.Some? ==> Shows(f, project.value)
  {
    match project
    case None =>
      ProjectForm("", "", "", "", "", "", "", "", "", "", "draft", "Public", "")
    case Some(p) =>
      ProjectForm(p.name, p.slug, OrEmpty(p.summary), OrEmpty(p.fullDescription),
                  OrEmpty(p.category), StackText(p.stack), OrEmpty(p.url), OrEmpty(p.domain),
                  OrEmpty(p.repoUrl), OrEmpty(p.thumbnail), OrElse(p.status, "draft"),
                  OrElse(p.visibility, "Public"), YearText(p.year))
  }

  /** `mutationFn`'s payload: empty optional inputs become `null`, the rest is copied. */
  function PayloadOf(f: ProjectForm): (p: ProjectPayload)
    ensures p.fullDescription.None? <==> f.fullDescription == ""
    ensures p.url.None? <==> f.url == ""
    ensures p.domain.None? <==> f.domain == ""
    ensures p.repoUrl.None? <==> f.repoUrl == ""
    ensures p.visibility.None? <==> f.visibility == ""
    ensures p.year.Some? ==> f.year != ""
    ensures forall x | x in p.stack :: CleanEntry(x, ',')
    ensures p.name == f.name && p.slug == f.slug && p.summary == f.summary
    ensures p.category == f.category && p.thumbnail == f.thumbnail && p.status == f.status
    ensures p.fullDescription == NullIfEmpty(f.fullDescription) && p.url == NullIfEmpty(f.url)
    ensures p.domain == NullIfEmpty(f.domain) && p.repoUrl == NullIfEmpty(f.repoUrl)
    ensures p.visibility == NullIfEmpty(f.visibility)
    ensures p.year == YearPayload(f.year) && p.stack == StackPayload(f.stack)
  {
    ProjectPayload(f.name, f.slug, f.summary, NullIfEmpty(f.fullDescription), f.category,
                   StackPayload(f.stack), NullIfEmpty(f.url), NullIfEmpty(f.domain),
                   NullIfEmpty(f.repoUrl), f.thumbnail, f.status, NullIfEmpty(f.visibility),
                   YearPayload(f.year))
  }

  function IdOf(project: Option<Project>): Option<string> {
    match project
    case Some(p) => Some(p.id)
    case None => None
  }

  /** A save: an update of the edited project's row, or an insert for a new one. */
  function Submit(project: Option<Project>, f: ProjectForm): (w: Store.Write<ProjectPayload>)
    ensures w.Update? <==> project.Some?
    ensures w.Update? ==> w.id == project.value.id
    ensures w.row == PayloadOf(f)
  {
    Store.Save(IdOf(project), PayloadOf(f))
  }

  /** A stack of clean entries shown in the form and saved again is unchanged. */
  lemma StackRoundTrip(xs: seq<string>)
    requires forall x | x in xs :: CleanEntry(x, ',')
    ensures StackPayload(StackText(Some(xs))) == xs
  {
    assert ", " == [','] + " " && AllSpace(" ");
    ListRoundTrip(Some(xs), ',', " ");
  }

  /** A year shown in the form and saved again is unchanged. */
  lemma YearRoundTrip(year: Option<int>)
    ensures YearPayload(YearText(year)) == year
  {
    if year.Some? {
      Numbers.ParseIntToString(year.value);
    }
  }

  /** A new project starts as a draft, public, with every other input empty; saved untouched
      it has no stack, no year and `null` in every optional column but the visibility. */
  lemma NewProjectDefaults()
    ensures var f := InitialForm(None);
      && f.status == "draft" && f.visibility == "Public"
      && f.name == "" && f.stack == "" && f.year == ""
    ensures var p := PayloadOf(InitialForm(None));
      && p.stack == [] && p.year == None && p.visibility == Some("Public")
      && p.fullDescription == None && p.url == None && p.domain == None && p.repoUrl == None
  {
    assert Split("", ',') == [""];
    assert TrimEach([""]) == [""];
  }

  /** Opening a stored project and saving it untouched writes back what was stored, up to the
      form's normalisations: an empty optional column becomes `null`, a missing stack `[]`,
      a missing summary, category or thumbnail `""`, a missing status "draft" and a missing
      visibility "Public". */
  /** A nullable column with the empty string read as `null`. */
  function EmptyAsNull(column: Option<string>): Option<string> {
    if column == Some("") then None else column
  }

  lemma UntouchedSave(p: Project)
    requires p.stack.Some? ==> forall x | x in p.stack.value :: CleanEntry(x, ',')
    ensures var w := PayloadOf(InitialForm(Some(p)));
      && w.name == p.name && w.slug == p.slug
      && w.stack == p.stack.GetOr([])
      && w.year == p.year
      && w.fullDescription == EmptyAsNull(p.fullDescription) && w.url == EmptyAsNull(p.url)
      && w.domain == EmptyAsNull(p.domain) && w.repoUrl == EmptyAsNull(p.repoUrl)
      && w.summary == OrEmpty(p.summary) && w.category == OrEmpty(p.category)
      && w.status == OrElse(p.status, "draft")
      && w.visibility == Some(OrElse(p.visibility, "Public"))
  {
    ShownPayload(InitialForm(Some(p)), p);
  }

  /** The payload of a form that shows `p`, column by column. */
  lemma ShownPayload(f: ProjectForm, p: Project)
    requires Shows(f, p)
    requires p.stack.Some? ==> forall x | x in p.stack.value :: CleanEntry(x, ',')
    ensures var w := PayloadOf(f);
      && w.stack == p.stack.GetOr([]) && w.year == p.year
      && w.fullDescription == EmptyAsNull(p.fullDescription) && w.url == EmptyAsNull(p.url)
      && w.domain == EmptyAsNull(p.domain) && w.repoUrl == EmptyAsNull(p.repoUrl)
  {
    ShownList(f.stack, p.stack);
    YearRoundTrip(p.year);
    ShownColumn(f.fullDescription, p.fullDescription);
    ShownColumn(f.url, p.url);
    ShownColumn(f.domain, p.domain);
    ShownColumn(f.repoUrl, p.repoUrl);
  }

  lemma ShownList(text: string, stack: Option<seq<string>>)
    requires text == StackText(stack)
    requires stack.Some? ==> forall x | x in stack.value :: CleanEntry(x, ',')
    ensures StackPayload(text) == stack.GetOr([])
  {
    assert ", " == [','] + " " && AllSpace(" ");
    ListRoundTrip(stack, ',', " ");
  }

  lemma ShownColumn(text: string, column: Option<string>)
    requires text == OrEmpty(column)
    ensures NullIfEmpty(text) == EmptyAsNull(column)
  {
    NullIfEmptyOfOrEmpty(column);
  }


}
