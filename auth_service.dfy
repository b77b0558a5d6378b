/** The deterministic parts of the authentication service: the user-facing text for an auth
    error, and the user document written on a first sign-in. */
module AuthService {
  import opened Wrappers
  import opened Text

  // ---------------------------------------------------------------- error messages

  /** The seven Firebase error codes the service explains. */
  datatype AuthCode =
    | EmailAlreadyInUse | InvalidEmail | WeakPassword | UserNotFound
    | WrongPassword | TooManyRequests | NetworkRequestFailed

  function CodeName(c: AuthCode): string
  {
    match c
    case EmailAlreadyInUse => "auth/email-already-in-use"
    case InvalidEmail => "auth/invalid-email"
    case WeakPassword => "auth/weak-password"
    case UserNotFound => "auth/user-not-found"
    case WrongPassword => "auth/wrong-password"
    case TooManyRequests => "auth/too-many-requests"
    case NetworkRequestFailed => "auth/network-request-failed"
  }

  /** The `switch` on `error.code`: which of the seven codes, if any, the string is. */
  function ParseAuthCode(code: string): (c: Option<AuthCode>)
    ensures c.Some? ==> CodeName(c.value) == code
  {
    match code
    case "auth/email-already-in-use" => Some(EmailAlreadyInUse)
    case "auth/invalid-email" => Some(InvalidEmail)
    case "auth/weak-password" => Some(WeakPassword)
    case "auth/user-not-found" => Some(UserNotFound)
    case "auth/wrong-password" => Some(WrongPassword)
    case "auth/too-many-requests" => Some(TooManyRequests)
    case "auth/network-request-failed" => Some(NetworkRequestFailed)
    case _ => None
  }

  /** Every code's name is recognised as that code. */
  lemma ParseCodeName(c: AuthCode)
    ensures ParseAuthCode(CodeName(c)) == Some(c)
  {
  }

  const GenericAuthError := "An error occurred. Please try again."

  /** The fixed message for each explained code. */
  function KnownAuthMessage(c: AuthCode): (message: string)
    ensures |message| > 0 && message != GenericAuthError
  {
    match c
    case EmailAlreadyInUse => "This email is already registered. Please sign in instead."
    case InvalidEmail => "Please enter a valid email address."
    case WeakPassword => "Password should be at least 6 characters."
    case UserNotFound => "No account found with this email."
    case WrongPassword => "Incorrect password. Please try again."
    case TooManyRequests => "Too many failed attempts. Please try again later."
    case NetworkRequestFailed => "Network error. Please check your connection."
  }

  /** `getAuthErrorMessage`: a known code's fixed text; otherwise the error's own message, or a
      generic one when that is missing or empty. Never empty. */
  function AuthErrorMessage(code: Option<string>, message: Option<string>): (text: string)
    ensures |text| > 0
    ensures forall c :: code == Some(CodeName(c)) ==> text == KnownAuthMessage(c)
    ensures (code.None? || ParseAuthCode(code.value).None?) ==> text == OrElse(message, GenericAuthError)
  {
    var known := if code.Some? then ParseAuthCode(code.value) else None;
    assert forall c :: code == Some(CodeName(c)) ==> known == Some(c) by {
      forall c | code == Some(CodeName(c)) ensures known == Some(c) {
        ParseCodeName(c);
      }
    }
    match known
    case Some(c) => KnownAuthMessage(c)
    case None => OrElse(message, GenericAuthError)
  }

  function MessageLength(c: AuthCode): nat
  {
    match c
    case EmailAlreadyInUse => 57
    case InvalidEmail => 35
    case WeakPassword => 41
    case UserNotFound => 33
    case WrongPassword => 37
    case TooManyRequests => 49
    case NetworkRequestFailed => 44
  }

  lemma KnownMessageLength(c: AuthCode)
    ensures |KnownAuthMessage(c)| == MessageLength(c)
  {
  }

  /** Every explained code has its own message, and none of them depends on the error's own
      text: the user can tell the seven causes apart. */
  lemma KnownCodesAreTold(a: AuthCode, b: AuthCode, m1: Option<string>, m2: Option<string>)
    ensures AuthErrorMessage(Some(CodeName(a)), m1) == AuthErrorMessage(Some(CodeName(a)), m2)
    ensures a != b ==> AuthErrorMessage(Some(CodeName(a)), m1) != AuthErrorMessage(Some(CodeName(b)), m2)
  {
    KnownCodeMessage(a, m1);
    KnownCodeMessage(a, m2);
    KnownCodeMessage(b, m2);
    KnownMessageLength(a);
    KnownMessageLength(b);
  }

  lemma KnownCodeMessage(c: AuthCode, m: Option<string>)
    ensures AuthErrorMessage(Some(CodeName(c)), m) == KnownAuthMessage(c)
  {
  }

  // ---------------------------------------------------------------- new user documents

  /** `email?.split('@')[0]`: the part of the address before its first "@". */
  function EmailName(email: Option<string>): (name: Option<string>)
    ensures name.None? <==> email.None?
    ensures name.Some? ==> Lacks(name.value, '@') && |name.value| <= |email.value|
                           && name.value == email.value[..|name.value|]
  {
    match email
    case None => None
    case Some(e) =>
      var head := Split(e, "@")[0];
      SplitHeadIsPrefix(e, "@");
      LacksOfNotIncludes(head, '@');
      Some(head)
  }

  /** An address "user@domain" gives "user". */
  lemma EmailNameOf(user: string, domain: string)
    requires Lacks(user, '@')
    ensures EmailName(Some(user + "@" + domain)) == Some(user)
  {
    var e := user + "@" + domain;
    forall j | 0 <= j < |user| ensures !OccursAt(e, "@", j) {
      assert e[j..j + 1][0] == e[j] == user[j];
    }
    assert e[|user|..|user| + 1] == "@";
    SplitFirst(e, "@", |user|);
    assert e[..|user|] == user;
  }

  /** `displayName || email?.split('@')[0]`: the profile name, else the address's user part;
      `None` (undefined) when both are missing. */
  function FallbackName(displayName: Option<string>, email: Option<string>): (name: Option<string>)
    ensures name.None? <==> (displayName.None? || displayName.value == "") && email.None?
    ensures displayName.Some? && displayName.value != "" ==> name == displayName
    ensures (displayName.None? || displayName.value == "") ==> name == EmailName(email)
  {
    if displayName.Some? && displayName.value != "" then displayName else EmailName(email)
  }

  datatype Provider = EmailPassword(chosenName: string) | Google | Apple

  const AppleFallback := "Apple User"

  /** The display name stored on the first sign-in: the name chosen at sign-up; for Google the
      fallback name; for Apple the same, then "Apple User". */
  function FirstSignInName(provider: Provider, displayName: Option<string>, email: Option<string>): (name: Option<string>)
    ensures provider.EmailPassword? ==> name == Some(provider.chosenName)
    ensures provider.Google? ==> name == FallbackName(displayName, email)
    ensures provider.Apple? ==> name.Some? && |name.value| > 0
    ensures provider.Apple? ==> name == Some(OrElse(FallbackName(displayName, email), AppleFallback))
  {
    match provider
    case EmailPassword(chosen) => Some(chosen)
    case Google => FallbackName(displayName, email)
    case Apple => Some(OrElse(FallbackName(displayName, email), AppleFallback))
  }

  /** Apple stores what Google would, except that where Google's name would be missing or
      empty it stores "Apple User". */
  lemma AppleExtendsGoogle(displayName: Option<string>, email: Option<string>)
    ensures var g := FirstSignInName(Google, displayName, email);
      var a := FirstSignInName(Apple, displayName, email);
      && (g.Some? && g.value != "" ==> a == g)
      && (g.None? || g.value == "" ==> a == Some(AppleFallback))
  {
  }

  /** The user document in the `users` collection; the two server timestamps are left out. */
  datatype UserRecord = UserRecord(
    uid: string,
    email: Option<string>,
    displayName: Option<string>,
    photoURL: Option<string>,
    streak: int,
    points: int)

  /** The document created for a user without one. */
  function NewUserRecord(provider: Provider, uid: string, email: Option<string>,
                         displayName: Option<string>, photoURL: Option<string>): (r: UserRecord)
    ensures r.uid == uid && r.email == email
    ensures r.streak == 0 && r.points == 0
    ensures r.photoURL.None? <==> photoURL.None? || photoURL.value == ""
    ensures r.displayName == FirstSignInName(provider, displayName, email)
  {
    UserRecord(uid, email, FirstSignInName(provider, displayName, email),
               if photoURL.Some? && photoURL.value != "" then photoURL else None, 0, 0)
  }
}
