/** Reading a site setting (`useSettings`, `useSiteSetting` in `src/hooks/useSettings.ts`): the
    query over the `settings` table and the resolution of the returned row against a fallback.
    The table is given as the sequence of its rows; `JSON.parse` is a parameter. */
module SiteSettings {
  import opened Wrappers
  import opened Json

  /** A row of the `settings` table; `is_public` is nullable. */
  datatype Setting = Setting(id: string, key: string, value: Json, isPublic: Option<bool>)

  /** What the settings query hands to the page: nothing yet (loading, or the query failed), the
      public rows (no key), or at most one row (`maybeSingle`). */
  datatype SettingsData = NoData | Many(rows: seq<Setting>) | One(row: Option<Setting>)

  /** The rows the query's filters let through: public ones, and with `key` when one is given. */
  function Selected(table: seq<Setting>, key: Option<string>): (r: seq<Setting>)
    ensures |r| <= |table|
    ensures forall x | x in r :: x in table && x.isPublic == Some(true)
    ensures forall x | x in r :: key.None? || x.key == key.value
    ensures forall x | x in table && x.isPublic == Some(true) && (key.None? || x.key == key.value)
      :: x in r
  {
    if table == [] then []
    else
      var rest := Selected(table[1..], key);
      assert forall x | x in table[1..] :: x in table;
      var x := table[0];
      if x.isPublic == Some(true) && (key.None? || x.key == key.value) then [x] + rest else rest
  }

  /** The query of `useSettings(key)` once it has settled; an empty key selects every public row,
      and more than one row for a key is the `maybeSingle` error, which leaves no data. */
  function SettingsQuery(table: seq<Setting>, key: string): (d: SettingsData)
    ensures key == "" ==> d == Many(Selected(table, None))
    ensures key != "" ==> (d.One? <==> |Selected(table, Some(key))| <= 1)
    ensures key != "" && |Selected(table, Some(key))| == 0 ==> d == One(None)
    ensures key != "" && |Selected(table, Some(key))| == 1 ==>
              d == One(Some(Selected(table, Some(key))[0]))
    ensures key != "" && |Selected(table, Some(key))| > 1 ==> d == NoData
    ensures d.One? && d.row.Some? ==>
              (d.row.value in table && d.row.value.key == key && d.row.value.isPublic == Some(true))
  {
    if key == "" then Many(Selected(table, None))
    else
      var rows := Selected(table, Some(key));
      if |rows| == 0 then One(None)
      else if |rows| == 1 then (assert rows[0] in rows; One(Some(rows[0])))
      else NoData
  }

  /** The value a stored row resolves to: a string is parsed when it parses and kept otherwise,
      any other value is used as stored, and a `null` result falls back. */
  function ReadValue(value: Json, fallback: Option<Json>, parse: Parser): (r: Json)
    ensures !value.JString? && !value.JNull? ==> r == value
    ensures value.JString? && parse(value.s).None? ==> r == value
    ensures value.JString? && parse(value.s).Some? && !parse(value.s).value.JNull? ==>
      r == parse(value.s).value
    ensures (value == JNull || (value.JString? && parse(value.s) == Some(JNull))) ==>
              r == fallback.GetOr(JNull)
    ensures r == JNull <==>
              (&& fallback.GetOr(JNull) == JNull
               && (value == JNull || (value.JString? && parse(value.s) == Some(JNull))))
  {
    var parsed :=
      if value.JString? then (match parse(value.s) case Some(v) => v case None => value)
      else value;
    Coalesce(Some(parsed), fallback.GetOr(JNull))
  }

  /** `useSiteSetting(key, fallback)`: no data, or the array of rows, gives the fallback (or
      `null`); otherwise the row's value resolved by `ReadValue`. */
  function Resolve(data: SettingsData, fallback: Option<Json>, parse: Parser): (r: Json)
    ensures !(data.One? && data.row.Some?) ==> r == fallback.GetOr(JNull)
    ensures data.One? && data.row.Some? ==> r == ReadValue(data.row.value.value, fallback, parse)
  {
    match data
    case One(Some(row)) => ReadValue(row.value, fallback, parse)
    case _ => fallback.GetOr(JNull)
  }

  /** The setting a page reads: the one public row with that key resolved against the
      fallback; no key, no such row, or several of them give the fallback (or `null`). */
  function UseSiteSetting(table: seq<Setting>, key: string, fallback: Option<Json>, parse: Parser)
    : (r: Json)
    ensures key == "" || |Selected(table, Some(key))| != 1 ==> r == fallback.GetOr(JNull)
    ensures key != "" && |Selected(table, Some(key))| == 1 ==>
              r == ReadValue(Selected(table, Some(key))[0].value, fallback, parse)
  {
    Resolve(SettingsQuery(table, key), fallback, parse)
  }

  /** Keeping only the public rows selects the same rows again. */
  lemma {:induction false} SelectedOfPublic(table: seq<Setting>, key: Option<string>)
    ensures Selected(Selected(table, None), key) == Selected(table, key)
  {
    if table != [] {
      SelectedOfPublic(table[1..], key);
    }
  }

  /** Only public rows are ever read: hiding every private row changes nothing the page sees. */
  lemma OnlyPublicRowsMatter(table: seq<Setting>, key: string, fallback: Option<Json>,
                             parse: Parser)
    ensures UseSiteSetting(Selected(table, None), key, fallback, parse)
         == UseSiteSetting(table, key, fallback, parse)
  {
    SelectedOfPublic(table, None);
    SelectedOfPublic(table, Some(key));
  }
}
