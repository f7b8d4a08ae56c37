/** The home page (`src/pages/Home.tsx`): the hero's name, tagline and description, each the
    first non-empty of several sources; the featured disciplines; and the featured-work
    section. The data hooks' results and the translator `t` are parameters. */
module Home {
  import opened Wrappers

  /** A source of text: absent (`undefined`/`null`) or a string; only a non-empty string
      counts, as with `||`. */
  predicate Truthy(x: Option<string>) {
    x.Some? && x.value != ""
  }

  /** `a || b || ... || fallback`: the first non-empty source, else the fallback. */
  function FirstOf(sources: seq<Option<string>>, fallback: string): (r: string)
    ensures (forall i | 0 <= i < |sources| :: !Truthy(sources[i])) ==> r == fallback
    ensures forall i | 0 <= i < |sources| && Truthy(sources[i]) &&
                       (forall j | 0 <= j < i :: !Truthy(sources[j])) :: r == sources[i].value
    ensures fallback != "" ==> r != ""
  {
    if sources == [] then fallback
    else if Truthy(sources[0]) then sources[0].value
    else FirstOf(sources[1..], fallback)
  }

  datatype BrandIdentity = BrandIdentity(name: Option<string>, tagline: Option<string>)
  datatype Profile = Profile(fullName: Option<string>, headline: Option<string>, bio: Option<string>)
  datatype NarrativeBlock = NarrativeBlock(content: Option<string>)

  /** `x?.field`: nothing when the record itself is absent. */
  function BrandName(b: Option<BrandIdentity>): Option<string> {
    if b.Some? then b.value.name else None
  }

  function BrandTagline(b: Option<BrandIdentity>): Option<string> {
    if b.Some? then b.value.tagline else None
  }

  function FullName(p: Option<Profile>): Option<string> {
    if p.Some? then p.value.fullName else None
  }

  function Headline(p: Option<Profile>): Option<string> {
    if p.Some? then p.value.headline else None
  }

  function Bio(p: Option<Profile>): Option<string> {
    if p.Some? then p.value.bio else None
  }

  const DefaultSiteName := "Monynha Softwares"

  /** The site name: the brand's, else the profile's full name, else the default. */
  function SiteName(brand: Option<BrandIdentity>, profile: Option<Profile>): (r: string)
    ensures r != ""
    ensures Truthy(BrandName(brand)) ==> r == BrandName(brand).value
    ensures !Truthy(BrandName(brand)) && Truthy(FullName(profile)) ==>
              r == FullName(profile).value
    ensures !Truthy(BrandName(brand)) && !Truthy(FullName(profile)) ==>
              r == DefaultSiteName
  {
    var sources := [BrandName(brand), FullName(profile)];
    assert sources[1] == FullName(profile);
    FirstOf(sources, DefaultSiteName)
  }

  /** The tagline: the brand's, else the profile's headline, else the translated default. */
  function Tagline(brand: Option<BrandIdentity>, profile: Option<Profile>, t: string -> string)
    : (r: string)
    ensures Truthy(BrandTagline(brand)) ==> r == BrandTagline(brand).value
    ensures !Truthy(BrandTagline(brand)) && Truthy(Headline(profile)) ==>
              r == Headline(profile).value
    ensures !Truthy(BrandTagline(brand)) && !Truthy(Headline(profile)) ==>
              r == t("homePage.tagline")
  {
    var sources := [BrandTagline(brand), Headline(profile)];
    assert sources[1] == Headline(profile);
    FirstOf(sources, t("homePage.tagline"))
  }

  /** The hero text: the narrative block's, else the profile's bio, else the translated
      default. */
  function HeroDescription(block: Option<NarrativeBlock>, profile: Option<Profile>,
                           t: string -> string): (r: string)
    ensures var c := if block.Some? then block.value.content else None;
      && (Truthy(c) ==> r == c.value)
      && (!Truthy(c) && Truthy(Bio(profile)) ==>
            r == Bio(profile).value)
      && (!Truthy(c) && !Truthy(Bio(profile)) ==>
            r == t("homePage.heroDescription"))
  {
    var c := if block.Some? then block.value.content else None;
    var sources := [c, Bio(profile)];
    assert sources[1] == Bio(profile);
    FirstOf(sources, t("homePage.heroDescription"))
  }

  /** A brand value as stored, and a discipline card as shown. */
  datatype Value = Value(icon: Option<string>, title: string, description: Option<string>)
  datatype Discipline = Discipline(icon: string, title: string, desc: string)

  const DefaultIcon := "Sparkles"

  const DefaultDisciplines: seq<Discipline> := [
    Discipline("Palette", "Motion Design", "Dynamic visual narratives"),
    Discipline("Eye", "3D Art", "Immersive spatial experiences"),
    Discipline("Sparkles", "Interactive", "Engaging digital installations")
  ]

  /** A brand value as a discipline: no icon is "Sparkles", no description is "". */
  function DisciplineOf(v: Value): (d: Discipline)
    ensures d.title == v.title
    ensures d.icon == (if Truthy(v.icon) then v.icon.value else DefaultIcon)
    ensures d.desc == (if Truthy(v.description) then v.description.value else "")
  {
    Discipline(FirstOf([v.icon], DefaultIcon), v.title, FirstOf([v.description], ""))
  }

  /** The disciplines: the brand values, one card each, when there are any; otherwise the
      three defaults. */
  function FeaturedDisciplines(values: Option<seq<Value>>): (ds: seq<Discipline>)
    ensures values.Some? && values.value != [] ==>
              |ds| == |values.value|
              && forall i | 0 <= i < |ds| :: ds[i] == DisciplineOf(values.value[i])
    ensures values.None? || values.value == [] ==> ds == DefaultDisciplines
    ensures ds != [] && forall d | d in ds :: d.icon != ""
  {
    if values.Some? && values.value != [] then
      seq(|values.value|, i requires 0 <= i < |values.value| => DisciplineOf(values.value[i]))
    else DefaultDisciplines
  }

  /** A project as the home page reads it. */
  datatype Project = Project(name: string, slug: string, thumbnail: Option<string>,
                             category: Option<string>, stack: Option<seq<string>>)

  /** A featured card: title, image, subtitle, badges and link. */
  datatype Card = Card(title: string, image: string, subtitle: Option<string>,
                       badges: seq<string>, href: string)

  const Placeholder := "/brand/placeholder.svg"

  function Take<T>(xs: seq<T>, n: nat): (r: seq<T>)
    ensures |r| == if |xs| < n then |xs| else n
    ensures r == xs[..|r|]
  {
    if |xs| < n then xs else xs[..n]
  }

  /** A project's card: at most its first two stack entries as badges, the placeholder when
      it has no thumbnail, a link to its page. */
  function CardOf(p: Project): (c: Card)
    ensures c.title == p.name && c.subtitle == p.category
    ensures c.image != "" && (Truthy(p.thumbnail) ==> c.image == p.thumbnail.value)
    ensures |c.badges| <= 2
    ensures p.stack.Some? ==> c.badges == Take(p.stack.value, 2)
    ensures p.stack.None? ==> c.badges == []
    ensures c.href == "/projects/" + p.slug
  {
    Card(p.name, FirstOf([p.thumbnail], Placeholder), p.category,
         if p.stack.Some? then Take(p.stack.value, 2) else [], "/projects/" + p.slug)
  }

  /** What the featured-work section shows. */
  datatype Section = Skeletons(count: nat) | Projects(cards: seq<Card>) | Disciplines(items: seq<Discipline>)

  /** Three placeholders while the projects load; then the first three projects' cards when
      there are any; otherwise the disciplines. */
  function FeaturedSection(loading: bool, projects: Option<seq<Project>>,
                           values: Option<seq<Value>>): (s: Section)
    ensures loading ==> s == Skeletons(3)
    ensures !loading && projects.Some? && projects.value != [] ==>
              && s.Projects?
              && |s.cards| == (if |projects.value| < 3 then |projects.value| else 3)
              && forall i | 0 <= i < |s.cards| :: s.cards[i] == CardOf(projects.value[i])
    ensures !loading && (projects.None? || projects.value == []) ==>
              s == Disciplines(FeaturedDisciplines(values))
  {
    if loading then Skeletons(3)
    else if projects.Some? && projects.value != [] then
      var shown := Take(projects.value, 3);
      Projects(seq(|shown|, i requires 0 <= i < |shown| => CardOf(shown[i])))
    else Disciplines(FeaturedDisciplines(values))
  }

  /** However many projects there are, the section never shows more than three cards, nor
      more than two badges on one, nor a card without an image. */
  lemma FeaturedBounds(loading: bool, projects: Option<seq<Project>>, values: Option<seq<Value>>)
    ensures var s := FeaturedSection(loading, projects, values);
      s.Projects? ==> |s.cards| <= 3 && forall c | c in s.cards :: |c.badges| <= 2 && c.image != ""
  {
  }
}
