/** The password reset page (`src/pages/PasswordReset.tsx`): a session gate, then a form whose
    submission checks the new password's length, then that it matches its confirmation, and
    only then asks the auth provider to change it. The page's state is a class; the auth
    provider's answers are parameters. */
module PasswordReset {
  import opened Wrappers

  const MinLength := 6
  const TooShortToast := "Password must be at least 6 characters long."
  const MismatchToast := "Passwords do not match."
  const ExpiredLinkToast := "Invalid or expired password reset link. Please try again."
  const UpdatedToast := "Your password has been updated successfully!"
  const AuthPath := "/auth"

  /** The first check a pair fails, in the order the page checks them. */
  datatype Rejection = TooShort | Mismatch

  function RejectionToast(r: Rejection): string {
    match r
    case TooShort => TooShortToast
    case Mismatch => MismatchToast
  }

  /** The page's checks: length first, then the match. */
  function Check(password: string, confirmation: string): (r: Option<Rejection>)
    ensures r.None? <==> |password| >= MinLength && password == confirmation
    ensures |password| < MinLength ==> r == Some(TooShort)
    ensures r == Some(Mismatch) <==> |password| >= MinLength && password != confirmation
  {
    if |password| < MinLength then Some(TooShort)
    else if password != confirmation then Some(Mismatch)
    else None
  }

  /** How the auth provider answers a password update: success, an error result, or a
      thrown exception; the last two carry a message. */
  datatype UpdateAnswer = Updated | ErrorResult(message: string) | Thrown(message: string)

  function AnswerToast(a: UpdateAnswer): string {
    match a
    case Updated => UpdatedToast
    case ErrorResult(m) => "Failed to update password: " + m
    case Thrown(m) => "An unexpected error occurred: " + m
  }

  class ResetPage {
    var password: string
    var confirmation: string
    var isLoading: bool
    var isSessionValid: bool
    /** Toasts shown, oldest first. */
    var toasts: seq<string>
    /** Where the page has navigated, if anywhere. */
    var redirect: Option<string>
    /** The passwords sent to the auth provider, oldest first. */
    var updates: seq<string>

    constructor()
      ensures password == "" && confirmation == "" && !isLoading && !isSessionValid
      ensures toasts == [] && redirect == None && updates == []
      ensures !ShowsForm()
    {
      password := "";
      confirmation := "";
      isLoading := false;
      isSessionValid := false;
      toasts := [];
      redirect := None;
      updates := [];
    }

    /** The form is rendered only once the session was found; until then a spinner. */
    predicate ShowsForm()
      reads this
    {
      isSessionValid
    }

    /** The session check run on mount: with a session the form appears, without one the page
        warns and leaves for `/auth`. */
    method CheckSession(hasSession: bool)
      modifies this
      ensures isSessionValid == (old(isSessionValid) || hasSession)
      ensures hasSession ==> toasts == old(toasts) && redirect == old(redirect)
      ensures !hasSession ==> toasts == old(toasts) + [ExpiredLinkToast] && redirect == Some(AuthPath)
      ensures password == old(password) && confirmation == old(confirmation)
      ensures isLoading == old(isLoading) && updates == old(updates)
    {
      if hasSession {
        isSessionValid := true;
      } else {
        toasts := toasts + [ExpiredLinkToast];
        redirect := Some(AuthPath);
      }
    }

    method EditPassword(p: string)
      modifies this`password
      ensures password == p
    {
      password := p;
    }

    method EditConfirmation(c: string)
      modifies this`confirmation
      ensures confirmation == c
    {
      confirmation := c;
    }

    /** `handlePasswordReset`. The update is issued exactly when both checks pass; a failed
        check shows its toast and issues nothing; whatever happens, loading is over when the
        handler returns. `answer` is the provider's reply, used only when the update is
        issued. */
    method Submit(answer: UpdateAnswer)
      requires ShowsForm()
      modifies this
      ensures !isLoading
      ensures Check(password, confirmation).None? ==> updates == old(updates) + [password]
      ensures Check(password, confirmation).Some? ==> updates == old(updates)
      ensures Check(password, confirmation).Some? ==>
                toasts == old(toasts) + [RejectionToast(Check(password, confirmation).value)]
      ensures Check(password, confirmation).None? ==> toasts == old(toasts) + [AnswerToast(answer)]
      ensures redirect ==
                (if Check(password, confirmation).None? && answer.Updated? then Some(AuthPath)
                 else old(redirect))
      ensures password == old(password) && confirmation == old(confirmation)
      ensures isSessionValid == old(isSessionValid)
    {
      isLoading := true;

      if |password| < MinLength {
        toasts := toasts + [TooShortToast];
        isLoading := false;
        return;
      }

      if password != confirmation {
        toasts := toasts + [MismatchToast];
        isLoading := false;
        return;
      }

      updates := updates + [password];
      match answer {
        case ErrorResult(m) =>
          toasts := toasts + ["Failed to update password: " + m];
          isLoading := false;
          return;
        case Updated =>
          toasts := toasts + [UpdatedToast];
          redirect := Some(AuthPath);
        case Thrown(m) =>
          toasts := toasts + ["An unexpected error occurred: " + m];
      }
      isLoading := false;
    }
  }
}
