/** What the admin editors share: the `x || ""` that fills a text input from a nullable
    column and the `x || null` that turns an empty input back into `null`. */
module AdminForms {
  import opened Wrappers
  import opened Text

  /** `value || fallback` for a nullable text column: `null` and the empty string are falsy. */
  function OrElse(x: Option<string>, fallback: string): (s: string)
    ensures x.None? || x == Some("") ==> s == fallback
    ensures x.Some? && x.value != "" ==> s == x.value
    ensures fallback != "" ==> s != ""
  {
    match x
    case Some(v) => if v == "" then fallback else v
    case None => fallback
  }

  /** `value || ""`. */
  function OrEmpty(x: Option<string>): (s: string)
    ensures s == "" <==> x.None? || x == Some("")
    ensures x.Some? ==> s == x.value
  {
    OrElse(x, "")
  }

  /** `text || null`: an empty input is stored as `null`, any other text verbatim. */
  function NullIfEmpty(s: string): (x: Option<string>)
    ensures x.None? <==> s == ""
    ensures x.Some? ==> x.value == s
  {
    if s == "" then None else Some(s)
  }

  /** A list column shown in a text input: its entries joined by `sep`, empty when missing. */
  function ListText(xs: Option<seq<string>>, sep: string): string {
    match xs
    case Some(ys) => Join(ys, sep)
    case None => ""
  }

  /** A list read back from a text input: split on `sep`, trimmed, empty entries dropped. */
  function ListPayload(text: string, sep: char): (xs: seq<string>)
    ensures forall x | x in xs :: CleanEntry(x, sep)
  {
    SplitTrimmedIsClean(text, sep);
    SplitTrimmed(text, sep)
  }

  /** A list of clean entries, shown joined by the separator and some padding and read back,
      is unchanged; a missing list reads back as no entries. */
  lemma ListRoundTrip(xs: Option<seq<string>>, sep: char, pad: string)
    requires AllSpace(pad) && sep !in pad
    requires xs.Some? ==> forall x | x in xs.value :: CleanEntry(x, sep)
    ensures ListPayload(ListText(xs, [sep] + pad), sep) == xs.GetOr([])
  {
    if xs.Some? {
      JoinThenSplitTrimmed(xs.value, sep, pad);
    } else {
      assert Split("", sep) == [""];
      assert TrimEach([""]) == [""];
    }
  }

  /** A nullable column shown in a form and saved again comes back unchanged, except that an
      empty string becomes `null`. */
  lemma NullIfEmptyOfOrEmpty(x: Option<string>)
    ensures NullIfEmpty(OrEmpty(x)) == (if x == Some("") then None else x)
  {
  }
}
