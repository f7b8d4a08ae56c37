/** The blog: `parseFrontMatter` and the `useBlogPosts` loader of `src/hooks/useBlogPosts.ts`.
    A post is a Markdown file that opens with a `---` fenced block of `key: value` lines. The
    loader walks the manifest of `src/lib/blogPosts.ts`, fetches each file, parses it and sorts
    the posts newest first. `fetch`, `JSON.parse`, the Markdown-to-HTML conversion and
    `new Date(d).getTime()` are parameters. */
module BlogPosts {
  import opened Wrappers
  import opened Text
  import opened Json
  import Sorting

  /** Why a file is refused: no fenced block ("Invalid Markdown format: missing front
      matter."), a `tags` value `JSON.parse` throws on, or a required field that is absent or
      falsy ("Missing required front matter field: " and the field). */
  datatype ParseError = MissingFrontMatter | BadTags(value: string) | MissingField(field: string)

  /** A front-matter value: `tags` holds what `JSON.parse` read, every other key a string. */
  datatype MetaValue = Text(s: string) | Parsed(j: Json)

  type Meta = map<string, MetaValue>

  datatype FrontMatter = FrontMatter(meta: Meta, content: string)

  function ErrorMessage(e: ParseError): string
    requires !e.BadTags?
  {
    match e
    case MissingFrontMatter => "Invalid Markdown format: missing front matter."
    case MissingField(f) => "Missing required front matter field: " + f
  }

  // ---------------------------------------------------------------- the fenced block

  predicate FenceAt(md: string, i: nat) {
    i + 3 <= |md| && md[i..i + 3] == "---"
  }

  /** The first `---` at or after `from`. */
  function FindFence(md: string, from: nat): (r: Option<nat>)
    ensures r.Some? ==> from <= r.value && FenceAt(md, r.value)
    ensures r.Some? ==> forall j | from <= j < r.value :: !FenceAt(md, j)
    ensures r.None? ==> forall j | from <= j :: !FenceAt(md, j)
    decreases |md| - from
  {
    if from + 3 > |md| then None
    else if FenceAt(md, from) then Some(from)
    else FindFence(md, from + 1)
  }

  /** A match of `/^---\s*([\s\S]*?)\s*---([\s\S]*)/`: group 1 (`raw`) and group 2 (`rest`),
      with the offsets where they start and where the closing fence is. */
  datatype FenceMatch = FenceMatch(open: nat, raw: string, close: nat, rest: string)

  /** The regular expression needs an opening `---` and another `---` after it. The greedy `\s*`
      eats the whitespace after the opening fence, the lazy group stops at the first closing
      fence, and the second `\s*` gives back the whitespace before it (`MatchShape`). */
  function MatchFrontMatter(md: string): (m: Option<FenceMatch>)
    ensures m.Some? <==> StartsWith(md, "---") && FindFence(md, 3).Some?
    ensures m.Some? ==> FindFence(md, 3) == Some(m.value.close) && m.value.rest == md[m.value.close + 3..]
  {
    if !StartsWith(md, "---") then None
    else
      match FindFence(md, 3)
      case None => None
      case Some(q) =>
        var k := |md| - |TrimStart(md[3..])|;
        assert md[3..][..k - 3] == md[3..k];
        NoFenceInSpace(md, 3, k);
        Some(FenceMatch(k, TrimEnd(md[k..q]), q, md[q + 3..]))
  }

  /** A `---` cannot start inside a run of whitespace. */
  lemma NoFenceInSpace(md: string, a: nat, b: nat)
    requires a <= b <= |md| && AllSpace(md[a..b])
    ensures forall j | a <= j < b :: !FenceAt(md, j)
  {
    forall j | a <= j < b ensures !FenceAt(md, j) {
      assert md[j] == md[a..b][j - a];
      assert !IsSpace('-');
    }
  }

  /** After the opening fence, `k` ends the run of whitespace: up to the first other
      character, or the end. */
  predicate OpeningRun(md: string, k: int) {
    3 <= k <= |md| && AllSpace(md[3..k]) && (k == |md| || !IsSpace(md[k]))
  }

  /** Group 1 starts at `k`, is `raw`, does not end in whitespace, and only whitespace lies
      between it and `q`. */
  predicate GroupRun(md: string, k: nat, raw: string, q: nat) {
    && k + |raw| <= q <= |md| && md[k..k + |raw|] == raw
    && (raw == [] || !IsSpace(raw[|raw| - 1])) && AllSpace(md[k + |raw|..q])
  }

  /** `q` is the first fence from offset 3 on, and `rest` is everything after it. */
  predicate ClosingFence(md: string, q: nat, rest: string) {
    FenceAt(md, q) && (forall j | 3 <= j < q :: !FenceAt(md, j)) && rest == md[q + 3..]
  }

  /** The whitespace after the opening fence, up to the first other character. */
  lemma OpeningShape(md: string, k: int)
    requires StartsWith(md, "---") && k == |md| - |TrimStart(md[3..])|
    ensures OpeningRun(md, k)
  {
    assert md[3..][k - 3..] == md[k..];
    assert md[3..][..k - 3] == md[3..k];
  }

  /** Group 1 is the text before the closing fence less its trailing whitespace. */
  lemma GroupShape(md: string, k: nat, q: nat)
    requires k <= q <= |md|
    ensures GroupRun(md, k, TrimEnd(md[k..q]), q)
  {
    var raw := TrimEnd(md[k..q]);
    assert md[k..k + |raw|] == md[k..q][..|raw|];
    assert md[k + |raw|..q] == md[k..q][|raw|..];
  }

  /** What the match covers: the opening fence, whitespace, group 1 (not ending in whitespace),
      whitespace, the first later fence, and group 2 to the end. */
  lemma MatchShape(md: string, m: FenceMatch)
    requires MatchFrontMatter(md) == Some(m)
    ensures StartsWith(md, "---") && OpeningRun(md, m.open)
    ensures GroupRun(md, m.open, m.raw, m.close) && ClosingFence(md, m.close, m.rest)
  {
    MatchFields(md, m);
    OpeningShape(md, m.open);
    GroupShape(md, m.open, m.close);
  }

  /** Where group 1 starts, what it holds, and where the match ends. */
  lemma MatchFields(md: string, m: FenceMatch)
    requires MatchFrontMatter(md) == Some(m)
    ensures m.open == |md| - |TrimStart(md[3..])| && m.open <= m.close <= |md|
    ensures m.raw == TrimEnd(md[m.open..m.close]) && ClosingFence(md, m.close, m.rest)
  {
    var q := FindFence(md, 3).value;
    var k := |md| - |TrimStart(md[3..])|;
    OpeningShape(md, k);
    NoFenceInSpace(md, 3, k);
    assert k <= q;
    assert m == FenceMatch(k, TrimEnd(md[k..q]), q, md[q + 3..]);
  }

  /** A file has front matter when it opens with `---` and has another `---` later. */
  predicate HasFrontMatter(md: string) {
    StartsWith(md, "---") && exists q | 3 <= q < |md| :: FenceAt(md, q)
  }

  lemma MatchIffFences(md: string)
    ensures MatchFrontMatter(md).Some? <==> HasFrontMatter(md)
  {
    if FindFence(md, 3).Some? {
      assert FenceAt(md, FindFence(md, 3).value);
    }
  }

  // ---------------------------------------------------------------- one line

  /** Index of the line's first `:`, or its length when it has none. */
  function ColonAt(line: string): (i: nat)
    ensures i <= |line| && ':' !in line[..i] && (i < |line| ==> line[i] == ':')
  {
    if line == [] || line[0] == ':' then 0
    else
      var i := 1 + ColonAt(line[1..]);
      assert line[..i] == [line[0]] + line[1..][..i - 1];
      i
  }

  /** Everything before the line's first `:`. */
  function LineKey(line: string): string {
    line[..ColonAt(line)]
  }

  /** Everything after the line's first `:`, later colons kept, trimmed; empty without a
      colon. */
  function LineValue(line: string): string {
    var i := ColonAt(line);
    if i < |line| then Trim(line[i + 1..]) else ""
  }

  /** The key and value are the first piece of `line.split(":")` and the other pieces joined
      again with `":"` and trimmed. */
  lemma LineIsSplitAtColon(line: string)
    ensures LineKey(line) == Split(line, ':')[0]
    ensures LineValue(line) == Trim(Join(Split(line, ':')[1..], ":"))
  {
    var i := ColonAt(line);
    var parts := Split(line, ':');
    if i < |line| {
      var b := line[i + 1..];
      SplitAtColon(line, i);
      assert parts[1..] == Split(b, ':');
      JoinSplit(b, ':');
      assert [':'] == ":";
    } else {
      assert line[..i] == line;
      SplitWithoutSep(line, ':');
      assert parts[1..] == [];
      assert Trim("") == "";
    }
  }

  /** Splitting on `:` at a line's first colon gives what precedes it, then the split of what
      follows. */
  lemma SplitAtColon(line: string, i: nat)
    requires i < |line| && line[i] == ':' && ':' !in line[..i]
    ensures Split(line, ':') == [line[..i]] + Split(line[i + 1..], ':')
  {
    var a, b := line[..i], line[i + 1..];
    assert line == a + [':'] + b;
    SplitAtFirst(a, b, ':');
  }

  /** A line is cut at its first colon. */
  lemma LineAtFirstColon(a: string, b: string)
    requires ':' !in a
    ensures LineKey(a + ":" + b) == a && LineValue(a + ":" + b) == Trim(b)
  {
    var line := a + ":" + b;
    assert line[..|a|] == a && line[|a|] == ':';
    assert ColonAt(line) == |a|;
    assert line[|a| + 1..] == b;
  }

  /** A line without a colon has no value, so it is ignored. */
  lemma LineWithoutColon(line: string)
    requires ':' !in line
    ensures LineKey(line) == line && LineValue(line) == ""
  {
    assert line[..ColonAt(line)] == line;
  }

  /** One front-matter entry. It is ignored when its key or its value is empty. A `tags` value
      has `'` turned into `"` and goes through `JSON.parse`, which may throw; any other value
      loses its double quotes. A key seen before is overwritten. */
  function ApplyEntry(meta: Meta, key: string, value: string, parse: Parser)
    : (r: Result<Meta, ParseError>)
    ensures key == "" || value == "" ==> r == Ok(meta)
    ensures key != "" && value != "" && key != "tags" ==>
              r == Ok(meta[key := Text(RemoveChar(value, '"'))])
    ensures key == "tags" && value != "" ==>
              (r.Err? <==> parse(ReplaceChar(value, '\'', '"')).None?)
    ensures key == "tags" && value != "" && r.Ok? ==>
              r.value == meta[key := Parsed(parse(ReplaceChar(value, '\'', '"')).value)]
    ensures r.Err? ==> key == "tags" && r.error == BadTags(value)
    ensures WellKinded(meta) && r.Ok? ==> WellKinded(r.value)
    ensures r.Ok? ==> forall k | k in meta && k != key :: k in r.value && r.value[k] == meta[k]
  {
    if key == "" || value == "" then Ok(meta)
    else if key == "tags" then
      match parse(ReplaceChar(value, '\'', '"'))
      case None => Err(BadTags(value))
      case Some(j) => Ok(meta[key := Parsed(j)])
    else Ok(meta[key := Text(RemoveChar(value, '"'))])
  }

  /** Only `tags` holds a parsed value, and no string value has a double quote left. */
  predicate WellKinded(meta: Meta) {
    forall k | k in meta :: (meta[k].Parsed? <==> k == "tags") && (meta[k].Text? ==> '"' !in meta[k].s)
  }

  /** Each line's key and value. */
  function LineEntries(lines: seq<string>): (es: seq<(string, string)>)
    ensures |es| == |lines|
    ensures forall i | 0 <= i < |lines| :: es[i] == (LineKey(lines[i]), LineValue(lines[i]))
  {
    seq(|lines|, i requires 0 <= i < |lines| => (LineKey(lines[i]), LineValue(lines[i])))
  }

  /** The entries applied in order, from an empty record; the first error stops it. */
  function CollectEntries(es: seq<(string, string)>, parse: Parser): (r: Result<Meta, ParseError>)
    ensures r.Ok? ==> WellKinded(r.value)
    ensures r.Err? ==> r.error.BadTags?
  {
    if es == [] then Ok(map[])
    else
      match CollectEntries(es[..|es| - 1], parse)
      case Err(e) => Err(e)
      case Ok(m) => ApplyEntry(m, es[|es| - 1].0, es[|es| - 1].1, parse)
  }

  /** The `forEach` over the lines of the block. */
  function CollectLines(lines: seq<string>, parse: Parser): Result<Meta, ParseError> {
    CollectEntries(LineEntries(lines), parse)
  }

  // ---------------------------------------------------------------- required fields

  const RequiredFields: seq<string> := ["slug", "title", "date", "author", "tags", "excerpt"]

  /** `meta[f]` is truthy: present, and not `""` nor a falsy JSON value. */
  predicate Present(meta: Meta, f: string) {
    f in meta && match meta[f] case Text(s) => s != "" case Parsed(j) => Truthy(j)
  }

  /** Every required field is present. */
  predicate AllPresent(meta: Meta) {
    forall j | 0 <= j < |RequiredFields| :: Present(meta, RequiredFields[j])
  }

  /** Index of the first field of `fields` that is not present, or `|fields|` when all are. */
  function FirstMissing(meta: Meta, fields: seq<string>): (i: nat)
    ensures i <= |fields|
    ensures forall j | 0 <= j < i :: Present(meta, fields[j])
    ensures i < |fields| ==> !Present(meta, fields[i])
  {
    if fields == [] then 0
    else if !Present(meta, fields[0]) then 0
    else 1 + FirstMissing(meta, fields[1..])
  }

  /** What follows a successful match: the lines of group 1 collected, the required fields
      checked, the body trimmed. */
  function ParseBlock(raw: string, rest: string, parse: Parser): (r: Result<FrontMatter, ParseError>)
    ensures r != Err(MissingFrontMatter)
    ensures r.Ok? ==> r.value.content == Trim(rest) && WellKinded(r.value.meta)
    ensures r.Ok? ==> AllPresent(r.value.meta)
  {
    match CollectLines(Split(raw, '\n'), parse)
    case Err(e) => Err(e)
    case Ok(meta) =>
      var i := FirstMissing(meta, RequiredFields);
      if i < |RequiredFields| then Err(MissingField(RequiredFields[i]))
      else
        Ok(FrontMatter(meta, Trim(rest)))
  }

  /** `parseFrontMatter` as a whole. */
  function ParseSpec(md: string, parse: Parser): (r: Result<FrontMatter, ParseError>)
    ensures r == Err(MissingFrontMatter) <==> MatchFrontMatter(md).None?
    ensures r.Ok? ==> r.value.content == Trim(MatchFrontMatter(md).value.rest)
    ensures r.Ok? ==> WellKinded(r.value.meta) && AllPresent(r.value.meta)
  {
    match MatchFrontMatter(md)
    case None => Err(MissingFrontMatter)
    case Some(m) => ParseBlock(m.raw, m.rest, parse)
  }

  // ---------------------------------------------------------------- the parser, step by step

  lemma {:induction false} ErrorStops(es: seq<(string, string)>, n: nat, parse: Parser)
    requires n <= |es| && CollectEntries(es[..n], parse).Err?
    ensures CollectEntries(es, parse) == CollectEntries(es[..n], parse)
    decreases |es| - n
  {
    if n < |es| {
      assert es[..n + 1][..n] == es[..n];
      ErrorStops(es, n + 1, parse);
    } else {
      assert es[..n] == es;
    }
  }

  /** The `forEach` over the block's lines: each line is cut at its first colon and applied to
      the record; a `tags` value that does not parse ends the walk with the error. */
  method CollectMeta(lines: seq<string>, parse: Parser) returns (r: Result<Meta, ParseError>)
    ensures r == CollectLines(lines, parse)
  {
    ghost var es := LineEntries(lines);
    var meta: Meta := map[];
    var i := 0;
    while i < |lines|
      invariant 0 <= i <= |lines|
      invariant CollectEntries(es[..i], parse) == Ok(meta)
    {
      assert es[..i + 1][..i] == es[..i];
      var key, value := LineKey(lines[i]), LineValue(lines[i]);
      assert es[i] == (key, value);
      match ApplyEntry(meta, key, value, parse) {
        case Err(e) =>
          ErrorStops(es, i + 1, parse);
          return Err(e);
        case Ok(m) =>
          meta := m;
      }
      i := i + 1;
    }
    assert es[..i] == es;
    r := Ok(meta);
  }

  /** The `for` loop over the required fields, stopping at the first that is missing. */
  method CheckRequired(meta: Meta) returns (missing: Option<string>)
    ensures missing.None? <==> AllPresent(meta)
    ensures missing.Some? ==> missing.value == RequiredFields[FirstMissing(meta, RequiredFields)]
  {
    var i := 0;
    while i < |RequiredFields|
      invariant 0 <= i <= |RequiredFields|
      invariant forall j | 0 <= j < i :: Present(meta, RequiredFields[j])
    {
      if !Present(meta, RequiredFields[i]) {
        return Some(RequiredFields[i]);
      }
      i := i + 1;
    }
    return None;
  }

  method ParseFrontMatter(md: string, parse: Parser) returns (r: Result<FrontMatter, ParseError>)
    ensures r == ParseSpec(md, parse)
  {
    var m := MatchFrontMatter(md);
    if m.None? {
      return Err(MissingFrontMatter);
    }
    var collected := CollectMeta(Split(m.value.raw, '\n'), parse);
    if collected.Err? {
      return Err(collected.error);
    }
    var meta := collected.value;
    var missing := CheckRequired(meta);
    if missing.Some? {
      return Err(MissingField(missing.value));
    }
    return Ok(FrontMatter(meta, Trim(m.value.rest)));
  }

  // ---------------------------------------------------------------- parser properties

  /** The file is refused for missing front matter exactly when it lacks the fenced block. */
  lemma MissingFrontMatterIff(md: string, parse: Parser)
    ensures ParseSpec(md, parse) == Err(MissingFrontMatter) <==> !HasFrontMatter(md)
  {
    MatchIffFences(md);
  }

  /** The body is what follows the first closing fence, trimmed. */
  lemma ContentAfterClosingFence(md: string, parse: Parser)
    requires ParseSpec(md, parse).Ok?
    ensures FindFence(md, 3).Some?
    ensures ParseSpec(md, parse).value.content == Trim(md[FindFence(md, 3).value + 3..])
  {
  }

  /** A refusal for a missing field names the first absent one, in the order slug, title, date,
      author, tags, excerpt. */
  lemma MissingFieldIsFirst(md: string, parse: Parser, f: string)
    requires ParseSpec(md, parse) == Err(MissingField(f))
    ensures MatchFrontMatter(md).Some?
    ensures CollectLines(Split(MatchFrontMatter(md).value.raw, '\n'), parse).Ok?
    ensures var meta := CollectLines(Split(MatchFrontMatter(md).value.raw, '\n'), parse).value;
      exists i | 0 <= i < |RequiredFields| ::
        (&& RequiredFields[i] == f && !Present(meta, f)
         && forall j | 0 <= j < i :: Present(meta, RequiredFields[j]))
  {
    var meta := CollectLines(Split(MatchFrontMatter(md).value.raw, '\n'), parse).value;
    var i := FirstMissing(meta, RequiredFields);
    assert RequiredFields[i] == f;
  }

  /** The last entry that sets a key decides its value: later entries with that key and an
      empty value are ignored. */
  lemma {:induction false} LastEntryWins(es: seq<(string, string)>, parse: Parser, i: nat)
    requires CollectEntries(es, parse).Ok?
    requires i < |es| && es[i].0 != "" && es[i].0 != "tags" && es[i].1 != ""
    requires forall j | i < j < |es| :: es[j].0 != es[i].0 || es[j].1 == ""
    ensures var meta := CollectEntries(es, parse).value;
      es[i].0 in meta && meta[es[i].0] == Text(RemoveChar(es[i].1, '"'))
    decreases |es|
  {
    var n := |es|;
    var init := es[..n - 1];
    assert CollectEntries(init, parse).Ok?;
    if i < n - 1 {
      assert init[i] == es[i];
      assert forall j | i < j < |init| :: init[j] == es[j];
      LastEntryWins(init, parse, i);
    }
  }

  /** Of several lines with the same key, the last one with a value decides the value. */
  lemma LastLineWins(lines: seq<string>, parse: Parser, i: nat)
    requires CollectLines(lines, parse).Ok?
    requires i < |lines| && LineKey(lines[i]) != "" && LineKey(lines[i]) != "tags"
    requires LineValue(lines[i]) != ""
    requires forall j | i < j < |lines| ::
               LineKey(lines[j]) != LineKey(lines[i]) || LineValue(lines[j]) == ""
    ensures var meta := CollectLines(lines, parse).value;
      LineKey(lines[i]) in meta && meta[LineKey(lines[i])] == Text(RemoveChar(LineValue(lines[i]), '"'))
  {
    LastEntryWins(LineEntries(lines), parse, i);
  }

  // ---------------------------------------------------------------- the loader

  datatype ManifestEntry = ManifestEntry(slug: string, filePath: string)

  /** What `fetch(entry.filePath)` does: reject (network failure), answer with a status that is
      not ok, or answer with the file's text. */
  datatype Response = Rejected | NotOk | Body(text: string)

  datatype Post = Post(
    slug: string, title: string, date: string, author: string, tags: Json, excerpt: string,
    contentHtml: string)

  /** The query's outcome: it fails as a whole, or yields the posts. */
  datatype Outcome = Failed | Loaded(posts: seq<Post>)

  function TextOf(meta: Meta, k: string): string {
    if k in meta && meta[k].Text? then meta[k].s else ""
  }

  /** The post built from a parsed file: its fields from the front matter, except the slug, which
      is always the manifest entry's. */
  function MakePost(entry: ManifestEntry, fm: FrontMatter, render: string -> string): (p: Post)
    ensures p.slug == entry.slug && p.contentHtml == render(fm.content)
  {
    Post(entry.slug, TextOf(fm.meta, "title"), TextOf(fm.meta, "date"), TextOf(fm.meta, "author"),
         if "tags" in fm.meta && fm.meta["tags"].Parsed? then fm.meta["tags"].j else JNull,
         TextOf(fm.meta, "excerpt"), render(fm.content))
  }

  /** The post a fetched file yields: one when it parses, none when it does not. */
  function FilePosts(entry: ManifestEntry, text: string, parse: Parser, render: string -> string)
    : (ps: seq<Post>)
    ensures |ps| <= 1 && forall p | p in ps :: p.slug == entry.slug
    ensures ps != [] <==> ParseSpec(text, parse).Ok?
  {
    match ParseSpec(text, parse)
    case Ok(fm) => [MakePost(entry, fm, render)]
    case Err(_) => []
  }

  function Slugs(manifest: seq<ManifestEntry>): (r: seq<string>)
    ensures |r| == |manifest| && forall i | 0 <= i < |manifest| :: r[i] == manifest[i].slug
  {
    seq(|manifest|, i requires 0 <= i < |manifest| => manifest[i].slug)
  }

  /** The posts the manifest walk collects, before sorting. With a slug requested (a non-empty
      `slug`), other entries are skipped and the walk ends after the first entry whose fetch
      answered ok. A rejected fetch fails the whole query; a not-ok answer or a parse error skips
      the entry. */
  function Gather(manifest: seq<ManifestEntry>, slug: string, fetch: string -> Response,
                  parse: Parser, render: string -> string): Outcome
  {
    if manifest == [] then Loaded([])
    else
      var e := manifest[0];
      var later := Gather(manifest[1..], slug, fetch, parse, render);
      if slug != "" && e.slug != slug then later
      else
        match fetch(e.filePath)
        case Rejected => Failed
        case NotOk => later
        case Body(text) =>
          var here := FilePosts(e, text, parse, render);
          if slug != "" then Loaded(here)
          else if later.Failed? then Failed
          else Loaded(here + later.posts)
  }

  function DateKey(timeOf: string -> int): Post -> int {
    (p: Post) => timeOf(p.date)
  }

  /** The whole query: the gathered posts, newest first. */
  function LoadSpec(manifest: seq<ManifestEntry>, slug: string, fetch: string -> Response,
                    parse: Parser, render: string -> string, timeOf: string -> int): (o: Outcome)
    ensures o.Failed? <==> Gather(manifest, slug, fetch, parse, render).Failed?
    ensures o.Loaded? ==>
              && multiset(o.posts) == multiset(Gather(manifest, slug, fetch, parse, render).posts)
              && Sorting.SortedDesc(o.posts, DateKey(timeOf))
  {
    match Gather(manifest, slug, fetch, parse, render)
    case Failed => Failed
    case Loaded(ps) => Loaded(Sorting.SortDesc(ps, DateKey(timeOf)))
  }

  /** Concatenation regroups; stated on its own so that the loop step of `LoadPosts` gets it
      as one fact rather than searching for it. */
  lemma ConcatAssoc<T>(a: seq<T>, b: seq<T>, c: seq<T>)
    ensures a + (b + c) == (a + b) + c
  {
  }

  function Prepend(ps: seq<Post>, o: Outcome): Outcome {
    if o.Failed? then Failed else Loaded(ps + o.posts)
  }

  /** The `try` block of the walk: the post a fetched file yields, or none when its front
      matter does not parse. */
  method ReadEntry(entry: ManifestEntry, text: string, parse: Parser, render: string -> string)
    returns (ps: seq<Post>)
    ensures ps == FilePosts(entry, text, parse, render)
  {
    var fm := ParseFrontMatter(text, parse);
    ps := if fm.Ok? then [MakePost(entry, fm.value, render)] else [];
  }

  /** The `useBlogPosts(slug)` query function. */
  method LoadPosts(manifest: seq<ManifestEntry>, slug: string, fetch: string -> Response,
                   parse: Parser, render: string -> string, timeOf: string -> int)
    returns (o: Outcome)
    ensures o == LoadSpec(manifest, slug, fetch, parse, render, timeOf)
  {
    var posts: seq<Post> := [];
    var i := 0;
    while i < |manifest|
      invariant 0 <= i <= |manifest|
      invariant Prepend(posts, Gather(manifest[i..], slug, fetch, parse, render))
             == Gather(manifest, slug, fetch, parse, render)
    {
      var entry := manifest[i];
      assert manifest[i..][0] == entry && manifest[i..][1..] == manifest[i + 1..];
      ghost var later := Gather(manifest[i + 1..], slug, fetch, parse, render);
      if slug != "" && entry.slug != slug {
        i := i + 1;
        continue;
      }
      var response := fetch(entry.filePath);
      ghost var old_posts := posts;
      if response.Rejected? {
        return Failed;
      }
      if response.NotOk? {
        i := i + 1;
        continue;
      }
      var here := ReadEntry(entry, response.text, parse, render);
      posts := posts + here;
      if slug != "" {
        assert Gather(manifest, slug, fetch, parse, render) == Loaded(posts);
        break;
      }
      if later.Loaded? {
        ConcatAssoc(old_posts, here, later.posts);
      }
      i := i + 1;
      if i == |manifest| {
        assert manifest[i..] == [] && posts + [] == posts;
      }
    }
    assert Gather(manifest, slug, fetch, parse, render) == Loaded(posts);
    o := Loaded(Sorting.SortDesc(posts, DateKey(timeOf)));
  }

  // ---------------------------------------------------------------- loader properties

  /** Every post carries the slug of a manifest entry, and there are at most as many posts as
      entries. */
  lemma {:induction false} PostsFromManifest(manifest: seq<ManifestEntry>, slug: string,
      fetch: string -> Response, parse: Parser, render: string -> string)
    requires Gather(manifest, slug, fetch, parse, render).Loaded?
    ensures var ps := Gather(manifest, slug, fetch, parse, render).posts;
      |ps| <= |manifest| && forall p | p in ps :: p.slug in Slugs(manifest)
  {
    if manifest != [] {
      var e := manifest[0];
      var later := Gather(manifest[1..], slug, fetch, parse, render);
      assert Slugs(manifest) == [e.slug] + Slugs(manifest[1..]);
      if later.Loaded? {
        PostsFromManifest(manifest[1..], slug, fetch, parse, render);
      }
    }
  }


  /** With a slug requested, at most one post comes back, and it carries that slug. */
  lemma {:induction false} RequestedSlugOnly(manifest: seq<ManifestEntry>, slug: string,
      fetch: string -> Response, parse: Parser, render: string -> string)
    requires slug != ""
    requires Gather(manifest, slug, fetch, parse, render).Loaded?
    ensures var ps := Gather(manifest, slug, fetch, parse, render).posts;
      |ps| <= 1 && forall p | p in ps :: p.slug == slug
  {
    if manifest != [] {
      var e := manifest[0];
      if (e.slug != slug) || fetch(e.filePath).NotOk? {
        RequestedSlugOnly(manifest[1..], slug, fetch, parse, render);
      }
    }
  }

  /** An entry the walk for `slug` passes over: another slug, or a not-ok answer. */
  predicate Skipped(e: ManifestEntry, slug: string, fetch: string -> Response) {
    e.slug != slug || fetch(e.filePath).NotOk?
  }

  /** With a slug requested, the walk is decided by the first entry with that slug that it
      does not pass over: a body gives that file's post (none when it does not parse, even if
      a later entry would), a rejection fails the query. */
  lemma {:induction false} RequestedEntryDecides(manifest: seq<ManifestEntry>, slug: string,
      fetch: string -> Response, parse: Parser, render: string -> string, i: nat)
    requires slug != ""
    requires i < |manifest| && !Skipped(manifest[i], slug, fetch)
    requires forall j | 0 <= j < i :: Skipped(manifest[j], slug, fetch)
    ensures fetch(manifest[i].filePath).Rejected? ==>
              Gather(manifest, slug, fetch, parse, render) == Failed
    ensures fetch(manifest[i].filePath).Body? ==>
              Gather(manifest, slug, fetch, parse, render)
              == Loaded(FilePosts(manifest[i], fetch(manifest[i].filePath).text, parse, render))
  {
    if i > 0 {
      assert Skipped(manifest[0], slug, fetch);
      forall j | 0 <= j < i - 1 ensures Skipped(manifest[1..][j], slug, fetch) {
        assert manifest[1..][j] == manifest[j + 1];
      }
      assert manifest[1..][i - 1] == manifest[i];
      RequestedEntryDecides(manifest[1..], slug, fetch, parse, render, i - 1);
    }
  }

  /** With a slug requested and every entry passed over, no post comes back. */
  lemma {:induction false} RequestedNothing(manifest: seq<ManifestEntry>, slug: string,
      fetch: string -> Response, parse: Parser, render: string -> string)
    requires slug != ""
    requires forall j | 0 <= j < |manifest| :: Skipped(manifest[j], slug, fetch)
    ensures Gather(manifest, slug, fetch, parse, render) == Loaded([])
  {
    if manifest != [] {
      assert Skipped(manifest[0], slug, fetch);
      forall j | 0 <= j < |manifest| - 1 ensures Skipped(manifest[1..][j], slug, fetch) {
        assert manifest[1..][j] == manifest[j + 1];
      }
      RequestedNothing(manifest[1..], slug, fetch, parse, render);
    }
  }

  /** The query for a requested slug: the post of the first entry with that slug whose fetch
      answered ok, none when that file does not parse or there is no such entry; a rejected
      fetch before it fails the query. */
  lemma RequestedPostLoaded(manifest: seq<ManifestEntry>, slug: string,
      fetch: string -> Response, parse: Parser, render: string -> string,
      timeOf: string -> int, i: nat)
    requires slug != ""
    requires i <= |manifest| && forall j | 0 <= j < i :: Skipped(manifest[j], slug, fetch)
    requires i < |manifest| ==> !Skipped(manifest[i], slug, fetch)
    ensures i == |manifest| ==> LoadSpec(manifest, slug, fetch, parse, render, timeOf) == Loaded([])
    ensures i < |manifest| && fetch(manifest[i].filePath).Rejected? ==>
              LoadSpec(manifest, slug, fetch, parse, render, timeOf) == Failed
    ensures i < |manifest| && fetch(manifest[i].filePath).Body? ==>
              LoadSpec(manifest, slug, fetch, parse, render, timeOf)
              == Loaded(FilePosts(manifest[i], fetch(manifest[i].filePath).text, parse, render))
  {
    if i == |manifest| {
      RequestedNothing(manifest, slug, fetch, parse, render);
    } else {
      RequestedEntryDecides(manifest, slug, fetch, parse, render, i);
      if fetch(manifest[i].filePath).Body? {
        var ps := FilePosts(manifest[i], fetch(manifest[i].filePath).text, parse, render);
        var sorted := Sorting.SortDesc(ps, DateKey(timeOf));
        if ps != [] {
          assert sorted[0] in multiset(ps);
          assert sorted == ps;
        }
      }
    }
  }

  /** Only a rejected fetch fails the query: a not-ok answer or a bad file never does. */
  lemma {:induction false} OnlyRejectionFails(manifest: seq<ManifestEntry>, slug: string,
      fetch: string -> Response, parse: Parser, render: string -> string)
    requires forall e | e in manifest :: fetch(e.filePath) != Rejected
    ensures Gather(manifest, slug, fetch, parse, render).Loaded?
  {
    if manifest != [] {
      assert manifest[0] in manifest;
      assert forall e | e in manifest[1..] :: e in manifest;
      OnlyRejectionFails(manifest[1..], slug, fetch, parse, render);
    }
  }

  /** Without a slug and without a rejected fetch, every entry that fetches and parses yields
      its post, whatever the other entries do. */
  lemma {:induction false} EveryGoodEntryLoaded(manifest: seq<ManifestEntry>,
      fetch: string -> Response, parse: Parser, render: string -> string, i: nat)
    requires forall e | e in manifest :: fetch(e.filePath) != Rejected
    requires i < |manifest| && fetch(manifest[i].filePath).Body?
    ensures Gather(manifest, "", fetch, parse, render).Loaded?
    ensures forall p | p in FilePosts(manifest[i], fetch(manifest[i].filePath).text, parse, render)
      :: p in Gather(manifest, "", fetch, parse, render).posts
    decreases i
  {
    OnlyRejectionFails(manifest, "", fetch, parse, render);
    assert forall e | e in manifest[1..] :: e in manifest;
    OnlyRejectionFails(manifest[1..], "", fetch, parse, render);
    var later := Gather(manifest[1..], "", fetch, parse, render);
    var e := manifest[0];
    assert e in manifest;
    var lead := match fetch(e.filePath) case Body(t) => FilePosts(e, t, parse, render) case _ => [];
    var all := Gather(manifest, "", fetch, parse, render).posts;
    assert all == lead + later.posts;
    var mine := FilePosts(manifest[i], fetch(manifest[i].filePath).text, parse, render);
    if i == 0 {
      assert mine == lead;
    } else {
      EveryGoodEntryLoaded(manifest[1..], fetch, parse, render, i - 1);
      assert manifest[1..][i - 1] == manifest[i];
      assert forall p | p in mine :: p in later.posts;
    }
    assert forall p | p in mine :: p in all;
  }

  /** The same, said of the parsed front matter: a good file's post is among the loaded ones. */
  lemma GoodFileLoaded(manifest: seq<ManifestEntry>, fetch: string -> Response, parse: Parser,
                       render: string -> string, i: nat)
    requires forall e | e in manifest :: fetch(e.filePath) != Rejected
    requires i < |manifest| && fetch(manifest[i].filePath).Body?
    requires ParseSpec(fetch(manifest[i].filePath).text, parse).Ok?
    ensures Gather(manifest, "", fetch, parse, render).Loaded?
    ensures MakePost(manifest[i], ParseSpec(fetch(manifest[i].filePath).text, parse).value, render)
            in Gather(manifest, "", fetch, parse, render).posts
  {
    EveryGoodEntryLoaded(manifest, fetch, parse, render, i);
    var ps := FilePosts(manifest[i], fetch(manifest[i].filePath).text, parse, render);
    assert ps[0] in ps;
  }

  /** The loaded posts are the gathered ones, newest first. */
  lemma LoadedNewestFirst(manifest: seq<ManifestEntry>, slug: string, fetch: string -> Response,
                          parse: Parser, render: string -> string, timeOf: string -> int)
    requires LoadSpec(manifest, slug, fetch, parse, render, timeOf).Loaded?
    ensures var ps := LoadSpec(manifest, slug, fetch, parse, render, timeOf).posts;
      && multiset(ps) == multiset(Gather(manifest, slug, fetch, parse, render).posts)
      && forall i, j | 0 <= i < j < |ps| :: timeOf(ps[i].date) >= timeOf(ps[j].date)
  {
    var ps := LoadSpec(manifest, slug, fetch, parse, render, timeOf).posts;
    assert Sorting.SortedDesc(ps, DateKey(timeOf));
    forall i, j | 0 <= i < j < |ps| ensures timeOf(ps[i].date) >= timeOf(ps[j].date) {
      assert DateKey(timeOf)(ps[i]) >= DateKey(timeOf)(ps[j]);
    }
  }
}
