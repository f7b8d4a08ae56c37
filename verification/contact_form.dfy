/** The contact form (`src/hooks/useContactForm.ts`): the schema that trims and bounds each
    field, and the submission that validates first and inserts one `contact_messages` row.
    The schema's e-mail format check is a parameter, `isEmail`. */
module ContactForm {
  import opened Wrappers
  import opened Text

  /** The schema's checks that can fail, one per message. */
  datatype Issue =
    | NameTooShort | NameTooLong | InvalidEmail | EmailTooLong | MessageTooShort | MessageTooLong

  function Message(i: Issue): string {
    match i
    case NameTooShort => "Name must be at least 2 characters"
    case NameTooLong => "Name must be less than 100 characters"
    case InvalidEmail => "Invalid email address"
    case EmailTooLong => "Email must be less than 255 characters"
    case MessageTooShort => "Message must be at least 10 characters"
    case MessageTooLong => "Message must be less than 2000 characters"
  }

  /** What the visitor typed. */
  datatype ContactInput = ContactInput(name: string, email: string, message: string)

  /** The row inserted into `contact_messages`. */
  datatype ContactRow = ContactRow(name: string, email: string, message: string, status: string)

  /** Every field trimmed, as the schema does before checking it. */
  function TrimFields(input: ContactInput): (v: ContactInput)
    ensures Trimmed(v.name) && Trimmed(v.email) && Trimmed(v.message)
  {
    ContactInput(Trim(input.name), Trim(input.email), Trim(input.message))
  }

  /** The issues the checks of one trimmed field raise, in the order the checks are chained.
      Every failing check reports: a failure does not stop the checks after it. */
  function NameIssues(t: string): (r: seq<Issue>)
    ensures NameTooShort in r <==> |t| < 2
    ensures NameTooLong in r <==> |t| > 100
    ensures forall i | i in r :: i == NameTooShort || i == NameTooLong
  {
    (if |t| < 2 then [NameTooShort] else []) + (if |t| > 100 then [NameTooLong] else [])
  }

  function EmailIssues(t: string, isEmail: string -> bool): (r: seq<Issue>)
    ensures InvalidEmail in r <==> !isEmail(t)
    ensures EmailTooLong in r <==> |t| > 255
    ensures forall i | i in r :: i == InvalidEmail || i == EmailTooLong
  {
    (if !isEmail(t) then [InvalidEmail] else []) + (if |t| > 255 then [EmailTooLong] else [])
  }

  function MessageIssues(t: string): (r: seq<Issue>)
    ensures MessageTooShort in r <==> |t| < 10
    ensures MessageTooLong in r <==> |t| > 2000
    ensures forall i | i in r :: i == MessageTooShort || i == MessageTooLong
  {
    (if |t| < 10 then [MessageTooShort] else []) + (if |t| > 2000 then [MessageTooLong] else [])
  }

  /** Where an issue comes in the schema: field by field, each field's checks in order. */
  function Rank(i: Issue): nat {
    match i
    case NameTooShort => 0
    case NameTooLong => 1
    case InvalidEmail => 2
    case EmailTooLong => 3
    case MessageTooShort => 4
    case MessageTooLong => 5
  }

  /** The ranks of `r` rise strictly and lie between `lo` and `hi`. */
  predicate RankedWithin(r: seq<Issue>, lo: nat, hi: nat) {
    && (forall i | 0 <= i < |r| :: lo <= Rank(r[i]) <= hi)
    && (forall i, j | 0 <= i < j < |r| :: Rank(r[i]) < Rank(r[j]))
  }

  lemma RankedConcat(a: seq<Issue>, b: seq<Issue>, lo: nat, mid: nat, hi: nat)
    requires lo <= mid <= hi
    requires RankedWithin(a, lo, mid) && RankedWithin(b, mid + 1, hi)
    ensures RankedWithin(a + b, lo, hi)
  {
    var r := a + b;
    forall i | 0 <= i < |r| ensures lo <= Rank(r[i]) <= hi {
      if i < |a| {
        assert r[i] == a[i];
      } else {
        assert r[i] == b[i - |a|];
      }
    }
    forall i, j | 0 <= i < j < |r| ensures Rank(r[i]) < Rank(r[j]) {
      if j < |a| {
        assert r[i] == a[i] && r[j] == a[j];
      } else if i < |a| {
        assert r[i] == a[i] && r[j] == b[j - |a|];
      } else {
        assert r[i] == b[i - |a|] && r[j] == b[j - |a|];
      }
    }
  }

  /** Two checks of one field, in order: each issue at most once, the first check's first. */
  lemma PairRanked(first: bool, second: bool, a: Issue, b: Issue)
    requires Rank(a) + 1 == Rank(b)
    ensures RankedWithin((if first then [a] else []) + (if second then [b] else []), Rank(a), Rank(b))
  {
  }

  /** The issues of the trimmed form, field by field. */
  function Issues(v: ContactInput, isEmail: string -> bool): seq<Issue> {
    NameIssues(v.name) + EmailIssues(v.email, isEmail) + MessageIssues(v.message)
  }

  /** The issues come field by field, each field's checks in order, each at most once. */
  lemma IssuesInSchemaOrder(v: ContactInput, isEmail: string -> bool)
    ensures RankedWithin(Issues(v, isEmail), 0, 5)
  {
    var n, e, m := NameIssues(v.name), EmailIssues(v.email, isEmail), MessageIssues(v.message);
    PairRanked(|v.name| < 2, |v.name| > 100, NameTooShort, NameTooLong);
    PairRanked(!isEmail(v.email), |v.email| > 255, InvalidEmail, EmailTooLong);
    PairRanked(|v.message| < 10, |v.message| > 2000, MessageTooShort, MessageTooLong);
    RankedConcat(n, e, 0, 1, 3);
    RankedConcat(n + e, m, 0, 3, 5);
  }

  /** Each trimmed field within its bounds, inclusive. */
  predicate WithinBounds(v: ContactInput, isEmail: string -> bool) {
    && 2 <= |v.name| <= 100
    && isEmail(v.email) && |v.email| <= 255
    && 10 <= |v.message| <= 2000
  }

  /** Every failing check's message is in the one error, and no other message is. */
  lemma EveryFailureReported(v: ContactInput, isEmail: string -> bool)
    ensures var r := Issues(v, isEmail);
      && (NameTooShort in r <==> |v.name| < 2)
      && (NameTooLong in r <==> |v.name| > 100)
      && (InvalidEmail in r <==> !isEmail(v.email))
      && (EmailTooLong in r <==> |v.email| > 255)
      && (MessageTooShort in r <==> |v.message| < 10)
      && (MessageTooLong in r <==> |v.message| > 2000)
  {
    var n, e, m := NameIssues(v.name), EmailIssues(v.email, isEmail), MessageIssues(v.message);
    var r := Issues(v, isEmail);
    assert r == n + e + m;
    assert NameTooShort in r <==> |v.name| < 2 by { InThree(NameTooShort, n, e, m); }
    assert NameTooLong in r <==> |v.name| > 100 by { InThree(NameTooLong, n, e, m); }
    assert InvalidEmail in r <==> !isEmail(v.email) by { InThree(InvalidEmail, n, e, m); }
    assert EmailTooLong in r <==> |v.email| > 255 by { InThree(EmailTooLong, n, e, m); }
    assert MessageTooShort in r <==> |v.message| < 10 by { InThree(MessageTooShort, n, e, m); }
    assert MessageTooLong in r <==> |v.message| > 2000 by { InThree(MessageTooLong, n, e, m); }
  }

  lemma InThree(x: Issue, a: seq<Issue>, b: seq<Issue>, c: seq<Issue>)
    ensures x in a + b + c <==> x in a || x in b || x in c
  {
  }

  /** The form passes exactly when no check fails. */
  lemma NoIssuesIff(v: ContactInput, isEmail: string -> bool)
    ensures Issues(v, isEmail) == [] <==> WithinBounds(v, isEmail)
  {
    var r := Issues(v, isEmail);
    EveryFailureReported(v, isEmail);
    if r != [] {
      assert r[0] in r;
      var n, e, m := NameIssues(v.name), EmailIssues(v.email, isEmail), MessageIssues(v.message);
      assert r[0] in n || r[0] in e || r[0] in m;
    }
  }

  /** `contactSchema.parse`: the trimmed fields, or every issue found. */
  function Validate(input: ContactInput, isEmail: string -> bool)
    : (r: Result<ContactInput, seq<Issue>>)
    ensures r.Ok? <==> WithinBounds(TrimFields(input), isEmail)
    ensures r.Ok? ==> r.value == TrimFields(input)
    ensures r.Err? ==> r.error != [] && r.error == Issues(TrimFields(input), isEmail)
  {
    var v := TrimFields(input);
    var issues := Issues(v, isEmail);
    NoIssuesIff(v, isEmail);
    if issues == [] then Ok(v) else Err(issues)
  }

  /** Validated data validates again to itself: trimming twice is trimming once. */
  lemma ValidateIdempotent(input: ContactInput, isEmail: string -> bool)
    requires Validate(input, isEmail).Ok?
    ensures Validate(Validate(input, isEmail).value, isEmail) == Validate(input, isEmail)
  {
    var v := TrimFields(input);
    TrimmedIsFixed(v.name);
    TrimmedIsFixed(v.email);
    TrimmedIsFixed(v.message);
    assert TrimFields(v) == v;
  }

  lemma TrimFieldsOfTrimmed(input: ContactInput)
    requires Trimmed(input.name) && Trimmed(input.email) && Trimmed(input.message)
    ensures TrimFields(input) == input
  {
    TrimmedIsFixed(input.name);
    TrimmedIsFixed(input.email);
    TrimmedIsFixed(input.message);
  }

  /** A two-character name passes the name check: the minimum is inclusive. Of the form
      `("Jo", "invalid-email", "Short")` only the e-mail and the message are reported. */
  lemma TwoCharacterNamePasses(isEmail: string -> bool)
    requires !isEmail("invalid-email")
    ensures Validate(ContactInput("Jo", "invalid-email", "Short"), isEmail)
         == Err([InvalidEmail, MessageTooShort])
  {
    var v := ContactInput("Jo", "invalid-email", "Short");
    SampleIsTrimmed(v);
    SampleIssues(v, isEmail);
  }

  lemma SampleIsTrimmed(v: ContactInput)
    requires v == ContactInput("Jo", "invalid-email", "Short")
    ensures TrimFields(v) == v
  {
    assert Trimmed(v.name) && Trimmed(v.email) && Trimmed(v.message);
    TrimFieldsOfTrimmed(v);
  }

  lemma SampleIssues(v: ContactInput, isEmail: string -> bool)
    requires v == ContactInput("Jo", "invalid-email", "Short") && !isEmail(v.email)
    ensures Issues(v, isEmail) == [InvalidEmail, MessageTooShort]
  {
    assert NameIssues(v.name) == [];
    assert EmailIssues(v.email, isEmail) == [InvalidEmail];
    assert MessageIssues(v.message) == [MessageTooShort];
  }

  /** How a submission ends. */
  datatype Outcome = Sent | Invalid(issues: seq<Issue>) | StoreFailed(message: string)

  /** The row a valid submission hands to the store: the trimmed fields, status "unread". */
  function RowOf(valid: ContactInput): (row: ContactRow)
    ensures ContactInput(row.name, row.email, row.message) == valid && row.status == "unread"
  {
    ContactRow(valid.name, valid.email, valid.message, "unread")
  }

  /** `mutationFn`: validate, then insert one row; `storeError` is the store's answer. An
      invalid form never reaches the store. Returns the outcome, the rows handed to the store,
      and the table afterwards. */
  function Submit(table: seq<ContactRow>, input: ContactInput, isEmail: string -> bool,
                  storeError: Option<string>)
    : (r: (Outcome, seq<ContactRow>, seq<ContactRow>))
    ensures r.0.Invalid? <==> !WithinBounds(TrimFields(input), isEmail)
    ensures r.0.Invalid? ==>
              r.1 == [] && r.2 == table && r.0.issues == Issues(TrimFields(input), isEmail)
    ensures !r.0.Invalid? ==> r.1 == [RowOf(TrimFields(input))] && r.1[0].status == "unread"
    ensures r.0 == Sent <==> WithinBounds(TrimFields(input), isEmail) && storeError.None?
    ensures r.0 == Sent ==> r.2 == table + r.1
    ensures r.0.StoreFailed? ==> storeError == Some(r.0.message) && r.2 == table
  {
    match Validate(input, isEmail)
    case Err(issues) => (Invalid(issues), [], table)
    case Ok(valid) =>
      var row := RowOf(valid);
      match storeError
      case Some(msg) => (StoreFailed(msg), [row], table)
      case None => (Sent, [row], table + [row])
  }
}
