/** The experience editor (`ExperienceForm` in `src/pages/admin/ExperiencesManager.tsx`): the
    form filled from a stored entry or empty, the payload a save writes, and how an entry's
    period is shown in the list. */
module ExperiencesManager {
  import opened Wrappers
  import opened Text
  import Store
  import opened AdminForms

  /** A row of the `experiences` table. */
  datatype Experience = Experience(
    id: string, role: string, organization: string, location: string, startDate: string,
    endDate: Option<string>, highlights: Option<seq<string>>, displayOrder: Option<int>,
    createdAt: Option<string>, updatedAt: Option<string>)

  datatype ExperienceForm = ExperienceForm(
    role: string, organization: string, location: string, startDate: string,
    endDate: string, highlights: string, displayOrder: int)

  /** What a save writes: no id, no timestamps. */
  datatype ExperiencePayload = ExperiencePayload(
    role: string, organization: string, location: string, startDate: string,
    endDate: Option<string>, highlights: seq<string>, displayOrder: int)

  /** The highlights input: one highlight per line. */
  function HighlightsText(highlights: Option<seq<string>>): string {
    ListText(highlights, "\n")
  }

  /** The highlights written: split into lines, trimmed, empty lines dropped. */
  function HighlightsPayload(text: string): (xs: seq<string>)
    ensures forall x | x in xs :: CleanEntry(x, '\n')
  {
    ListPayload(text, '\n')
  }

  /** `display_order || 0`. */
  function OrderOf(order: Option<int>): (n: int)
    ensures order.Some? ==> n == order.value
    ensures order.None? ==> n == 0
  {
    order.GetOr(0)
  }

  function InitialForm(experience: Option<Experience>): (f: ExperienceForm)
    ensures experience.None? ==> f == ExperienceForm("", "", "", "", "", "", 0)
    ensures experience.Some? ==> var e := experience.value;
      && f.role == e.role && f.organization == e.organization && f.location == e.location
      && f.startDate == e.startDate && f.endDate == OrEmpty(e.endDate)
      && f.highlights == HighlightsText(e.highlights) && f.displayOrder == OrderOf(e.displayOrder)
  {
    match experience
    case None => ExperienceForm("", "", "", "", "", "", 0)
    case Some(e) =>
      ExperienceForm(e.role, e.organization, e.location, e.startDate, OrEmpty(e.endDate),
                     HighlightsText(e.highlights), OrderOf(e.displayOrder))
  }

  /** The payload: an empty end date is `null` (the entry is current), the rest copied. */
  function PayloadOf(f: ExperienceForm): (p: ExperiencePayload)
    ensures p.endDate.None? <==> f.endDate == ""
    ensures p.endDate.Some? ==> p.endDate.value == f.endDate
    ensures p.role == f.role && p.organization == f.organization && p.location == f.location
    ensures p.startDate == f.startDate && p.displayOrder == f.displayOrder
    ensures forall x | x in p.highlights :: CleanEntry(x, '\n')
    ensures p.highlights == HighlightsPayload(f.highlights)
  {
    ExperiencePayload(f.role, f.organization, f.location, f.startDate, NullIfEmpty(f.endDate),
                      HighlightsPayload(f.highlights), f.displayOrder)
  }

  function IdOf(experience: Option<Experience>): Option<string> {
    match experience
    case Some(e) => Some(e.id)
    case None => None
  }

  /** A save: an update of the edited entry's row, or an insert for a new one. */
  function Submit(experience: Option<Experience>, f: ExperienceForm)
    : (w: Store.Write<ExperiencePayload>)
    ensures w.Update? <==> experience.Some?
    ensures w.Update? ==> w.id == experience.value.id
    ensures w.row == PayloadOf(f)
  {
    Store.Save(IdOf(experience), PayloadOf(f))
  }

  /** The end of the period shown in the list: the end date, or "Present" when there is
      none. */
  function EndLabel(endDate: Option<string>): (s: string)
    ensures s == "Present" <==> endDate.None? || endDate == Some("") || endDate == Some("Present")
  {
    OrElse(endDate, "Present")
  }

  /** Clean highlights shown in the form and saved again are unchanged. */
  lemma HighlightsRoundTrip(xs: seq<string>)
    requires forall x | x in xs :: CleanEntry(x, '\n')
    ensures HighlightsPayload(HighlightsText(Some(xs))) == xs
  {
    assert "\n" == ['\n'] + "" && AllSpace("");
    ListRoundTrip(Some(xs), '\n', "");
  }

  /** An entry saved with an empty end date is stored with no end date and listed as current
      ("Present"). */
  lemma EmptyEndDateIsPresent(f: ExperienceForm)
    requires f.endDate == ""
    ensures PayloadOf(f).endDate == None
    ensures EndLabel(PayloadOf(f).endDate) == "Present"
  {
  }

  /** Opening a stored entry and saving it untouched writes back what was stored, except that
      an empty end date becomes `null`, missing highlights `[]` and a missing order 0. */
  lemma UntouchedSave(e: Experience)
    requires e.highlights.Some? ==> forall x | x in e.highlights.value :: CleanEntry(x, '\n')
    ensures var w := PayloadOf(InitialForm(Some(e)));
      && w.role == e.role && w.organization == e.organization && w.location == e.location
      && w.startDate == e.startDate
      && w.endDate == (if e.endDate == Some("") then None else e.endDate)
      && w.highlights == e.highlights.GetOr([])
      && w.displayOrder == e.displayOrder.GetOr(0)
  {
    NullIfEmptyOfOrEmpty(e.endDate);
    assert "\n" == ['\n'] + "" && AllSpace("");
    ListRoundTrip(e.highlights, '\n', "");
  }
}
