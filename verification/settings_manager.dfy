/** The admin editor for one site setting (`SettingCard` in
    `src/pages/admin/SettingsManager.tsx`): the text shown for a stored JSON value, the payload a
    save sends, dirty tracking, and the choice between a one-line and a multi-line editor.
    `JSON.parse` and `JSON.stringify(value, null, 2)` are parameters. */
module SettingsManager {
  import opened Wrappers
  import opened Json
  import opened Text
  import opened SiteSettings
  import Store

  const InvalidJsonToast := "Invalid JSON format. Saving as plain text."
  const SavedToast := "setting updated successfully"

  /** The editor text for a stored value: a string as it is, anything else serialised. */
  function InitialText(value: Json, stringify: Printer): (t: string)
    ensures value.JString? ==> t == value.s
    ensures !value.JString? ==> t == stringify(value)
  {
    if value.JString? then value.s else stringify(value)
  }

  /** `setting.is_public || false`. */
  function PublicFlag(isPublic: Option<bool>): (b: bool)
    ensures b <==> isPublic == Some(true)
  {
    isPublic.GetOr(false)
  }

  /** Text that, once trimmed, starts with `{` or `[`. */
  predicate LooksLikeJson(text: string) {
    var t := Trim(text);
    StartsWith(t, "{") || StartsWith(t, "[")
  }

  /** The value a save stores for `text`: what it parses to when it looks like JSON and parses,
      otherwise the text itself, untrimmed. */
  function PayloadValue(text: string, parse: Parser): (v: Json)
    ensures v == JString(text) || (LooksLikeJson(text) && parse(text) == Some(v))
    ensures !LooksLikeJson(text) || parse(text).None? ==> v == JString(text)
  {
    if LooksLikeJson(text) && parse(text).Some? then parse(text).value else JString(text)
  }

  /** The warning a save shows for `text`: one when it looks like JSON but does not parse. */
  function JsonWarning(text: string, parse: Parser): (w: seq<string>)
    ensures w == [InvalidJsonToast] <==> LooksLikeJson(text) && parse(text).None?
    ensures w == [] || w == [InvalidJsonToast]
  {
    if LooksLikeJson(text) && parse(text).None? then [InvalidJsonToast] else []
  }

  /** Spaces before the text do not change whether it looks like JSON. */
  lemma LooksLikeJsonSkipsSpace(w: string, text: string)
    requires AllSpace(w)
    ensures LooksLikeJson(w + text) == LooksLikeJson(text)
  {
    TrimSkipsLeadingSpace(w, text);
  }

  datatype SettingPayload = SettingPayload(value: Json, isPublic: bool)

  /** The editor is a text area when the stored value is `null`, an array or an object, or when
      the text is longer than 50 characters. A stored number or boolean alone does not make it
      one. */
  predicate IsMultiline(stored: Json, text: string) {
    IsObjectType(stored) || |text| > 50
  }

  /** The editor's shape by stored type: `null`, arrays and objects always get a text area;
      strings, numbers and booleans get one only for text longer than 50 characters. */
  lemma MultilineChoice(stored: Json, text: string)
    ensures IsMultiline(stored, text) <==>
              stored.JNull? || stored.JArray? || stored.JObject? || |text| > 50
    ensures stored.JString? || stored.JNumber? || stored.JBool? ==>
              (IsMultiline(stored, text) <==> |text| > 50)
  {
  }

  class SettingCard {
    const setting: Setting
    const stringify: Printer
    /** Fixed when the card is first shown. */
    const initialText: string := InitialText(setting.value, stringify)
    var text: string
    var isPublic: bool
    var toasts: seq<string>

    constructor(setting: Setting, stringify: Printer)
      ensures this.setting == setting && this.stringify == stringify
      ensures initialText == InitialText(setting.value, stringify)
      ensures text == initialText && isPublic == PublicFlag(setting.isPublic) && toasts == []
      ensures !HasChanges()
    {
      this.setting := setting;
      this.stringify := stringify;
      text := InitialText(setting.value, stringify);
      isPublic := PublicFlag(setting.isPublic);
      toasts := [];
    }

    /** The form differs from what was loaded. The Save button is shown exactly when this
        holds. */
    predicate HasChanges()
      reads this
      ensures !HasChanges() <==> text == initialText && isPublic == PublicFlag(setting.isPublic)
    {
      text != initialText || isPublic != PublicFlag(setting.isPublic)
    }

    predicate UsesTextArea()
      reads this
      ensures UsesTextArea() <==> IsObjectType(setting.value) || |text| > 50
    {
      IsMultiline(setting.value, text)
    }

    method EditText(t: string)
      modifies this
      ensures text == t && isPublic == old(isPublic) && toasts == old(toasts)
      ensures HasChanges() <==> t != initialText || isPublic != PublicFlag(setting.isPublic)
    {
      text := t;
    }

    method Toggle(checked: bool)
      modifies this
      ensures isPublic == checked && text == old(text) && toasts == old(toasts)
      ensures HasChanges() <==> text != initialText || checked != PublicFlag(setting.isPublic)
    {
      isPublic := checked;
    }

    /** `transformToPayload`: parse when the text looks like JSON; a failed parse warns and
        still saves the raw text. */
    method TransformToPayload(parse: Parser) returns (p: SettingPayload)
      modifies this`toasts
      ensures p == SettingPayload(PayloadValue(text, parse), isPublic)
      ensures toasts == old(toasts) + JsonWarning(text, parse)
    {
      var parsedValue := JString(text);
      var warned: seq<string> := [];
      if LooksLikeJson(text) {
        match parse(text) {
          case Some(v) =>
            parsedValue := v;
          case None =>
            warned := [InvalidJsonToast];
        }
      }
      toasts := toasts + warned;
      p := SettingPayload(parsedValue, isPublic);
    }

    /** Submitting updates the setting's row by id with the payload's value and flag; a store
        error leaves the table and the form as they were. On success the form is reset from the
        setting it was opened on. */
    method Submit(table: Store.Table<Setting>, parse: Parser, storeError: Option<string>)
      returns (t: Store.Table<Setting>)
      modifies this
      ensures storeError.Some? ==> t == table && text == old(text) && isPublic == old(isPublic)
      ensures storeError.Some? ==>
                toasts == old(toasts) + JsonWarning(old(text), parse)
                  + ["Failed to update setting: " + storeError.value]
      ensures storeError.None? ==>
                toasts == old(toasts) + JsonWarning(old(text), parse) + [SavedToast]
      ensures storeError.None? ==> t == Store.Apply(table,
        Store.Update(setting.id, if setting.id in table then
          table[setting.id].(value := PayloadValue(old(text), parse), isPublic := Some(old(isPublic)))
          else setting), setting.id)
      ensures storeError.None? ==> !HasChanges()
    {
      var p := TransformToPayload(parse);
      if storeError.Some? {
        toasts := toasts + ["Failed to update setting: " + storeError.value];
        t := table;
      } else {
        var row := if setting.id in table then
          table[setting.id].(value := p.value, isPublic := Some(p.isPublic)) else setting;
        t := Store.Apply(table, Store.Update(setting.id, row), setting.id);
        toasts := toasts + [SavedToast];
        OnSaved();
      }
    }

    /** `onSuccessCallback`: the form goes back to the setting's stored text and flag. */
    method OnSaved()
      modifies this
      ensures text == InitialText(setting.value, stringify) && isPublic == PublicFlag(setting.isPublic)
      ensures toasts == old(toasts)
      ensures !HasChanges()
    {
      text := InitialText(setting.value, stringify);
      isPublic := PublicFlag(setting.isPublic);
    }
  }

  /** Saving a setting whose text was not edited (only its flag toggled, say) never changes what
      the site reads for it, although a number, boolean or `null` is then stored as its JSON text:
      the read side parses that text back. Needs `JSON.parse` to invert `JSON.stringify`, and
      text starting with `{` or `[` not to parse to a string, as RFC 8259 has it. */
  lemma UneditedSaveReadsTheSame(v: Json, stringify: Printer, parse: Parser,
                                 fallback: Option<Json>)
    requires !v.JString? ==> parse(stringify(v)) == Some(v)
    requires v.JString? && LooksLikeJson(v.s) && parse(v.s).Some? ==> !parse(v.s).value.JString?
    ensures ReadValue(PayloadValue(InitialText(v, stringify), parse), fallback, parse)
         == ReadValue(v, fallback, parse)
  {
    var text := InitialText(v, stringify);
    var saved := PayloadValue(text, parse);
    if v.JString? {
      if saved != v {
        assert parse(text) == Some(saved);
        assert !saved.JString?;
      }
    } else {
      if saved != v {
        assert saved == JString(text);
      }
    }
  }

  /** The stored type can change: a number whose text does not look like JSON is saved as a
      string. */
  lemma NumberSavedAsText(n: real, stringify: Printer, parse: Parser)
    requires !LooksLikeJson(stringify(JNumber(n)))
    ensures PayloadValue(InitialText(JNumber(n), stringify), parse) == JString(stringify(JNumber(n)))
  {
  }
}
