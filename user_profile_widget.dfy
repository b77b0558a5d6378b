/** The header's user widget: the avatar initials, the name beside it and the streak badge. */
module UserProfileWidget {
  import opened Wrappers
  import opened Seqs
  import opened Text
  import opened AuthService

  /** The signed-in user as the widget receives it; absent fields are `None`. */
  datatype User = User(
    displayName: Option<string>,
    email: Option<string>,
    photoURL: Option<string>,
    points: Option<int>,
    streak: Option<int>)

  const MaxInitials := 2

  /** `words.map(n => n[0]).join('')`: the first character of each word; an empty word gives
      `undefined`, which joins as nothing. */
  function FirstChars(words: seq<string>): (chars: string)
    ensures |chars| <= |words|
  {
    if words == [] then ""
    else (if |words[0]| > 0 then [words[0][0]] else "") + FirstChars(words[1..])
  }

  predicate HasDisplayName(user: User)
  {
    user.displayName.Some? && user.displayName.value != ""
  }

  /** The avatar text: the upper-cased first letters of the display name's words, at most two;
      without a display name the upper-cased first character of the email, else "?". */
  function Initials(user: User): (initials: string)
    ensures |initials| <= MaxInitials
    ensures !HasDisplayName(user) && user.email.Some? && user.email.value != ""
            ==> initials == [UpperChar(user.email.value[0])]
    ensures !HasDisplayName(user) && (user.email.None? || user.email.value == "") ==> initials == "?"
  {
    if HasDisplayName(user) then Take(ToUpper(FirstChars(Split(user.displayName.value, " "))), MaxInitials)
    else if user.email.Some? && user.email.value != "" then [UpperChar(user.email.value[0])]
    else "?"
  }

  /** One word contributes its first character, or nothing when it is empty. */
  lemma FirstCharsOfWord(w: string)
    ensures FirstChars([w]) == if w == "" then "" else [w[0]]
  {
    assert [w][1..] == [];
  }

  /** The first characters of two runs of words are those of the first run, then those of the
      second: each word contributes in its place. */
  lemma {:induction false} FirstCharsAppend(a: seq<string>, b: seq<string>)
    ensures FirstChars(a + b) == FirstChars(a) + FirstChars(b)
  {
    if a == [] {
      assert a + b == b;
    } else {
      assert (a + b)[0] == a[0];
      assert (a + b)[1..] == a[1..] + b;
      FirstCharsAppend(a[1..], b);
    }
  }

  /** A display name made of space-free pieces joined by single spaces shows the capitals of the
      first characters of its non-empty pieces, at most two; an empty piece (two spaces in a
      row, or a leading or trailing space) adds nothing. */
  lemma InitialsOfName(words: seq<string>, user: User)
    requires |words| >= 1
    requires forall i :: 0 <= i < |words| ==> Lacks(words[i], ' ')
    requires user.displayName == Some(Join(words, " ")) && HasDisplayName(user)
    ensures Initials(user) == Take(ToUpper(FirstChars(words)), MaxInitials)
  {
    SplitJoin(words, ' ');
  }

  /** A one-word display name shows its capitalised first letter. */
  lemma InitialsOfOneWord(w: string, user: User)
    requires w != [] && Lacks(w, ' ')
    requires user.displayName == Some(w)
    ensures Initials(user) == [UpperChar(w[0])]
  {
    assert Join([w], " ") == w;
    InitialsOfName([w], user);
    FirstCharsOfWord(w);
  }

  lemma {:induction false} FirstCharsOfWords(words: seq<string>)
    requires forall i :: 0 <= i < |words| ==> |words[i]| > 0
    ensures |FirstChars(words)| == |words|
    ensures forall i :: 0 <= i < |words| ==> FirstChars(words)[i] == words[i][0]
  {
    if words != [] {
      FirstCharsOfWords(words[1..]);
    }
  }

  /** A name of space-separated non-empty words shows the capitals of its first two words. */
  lemma InitialsOfWords(words: seq<string>, user: User)
    requires |words| >= 2
    requires forall i :: 0 <= i < |words| ==> |words[i]| > 0 && Lacks(words[i], ' ')
    requires user.displayName == Some(Join(words, " "))
    ensures Initials(user) == [UpperChar(words[0][0]), UpperChar(words[1][0])]
  {
    SplitJoin(words, ' ');
    assert Join(words, " ")[0] == words[0][0];
    FirstCharsOfWords(words);
  }

  lemma {:induction false} SplitSpaces(s: string)
    requires forall i :: 0 <= i < |s| ==> s[i] == ' '
    ensures forall i :: 0 <= i < |Split(s, " ")| ==> Split(s, " ")[i] == ""
    decreases |s|
  {
    if s != [] {
      assert s[0..1] == " ";
      IndexOfIs(s, " ", 0);
      SplitSpaces(s[1..]);
      assert Split(s, " ") == [""] + Split(s[1..], " ");
    }
  }

  lemma {:induction false} FirstCharsOfEmpties(words: seq<string>)
    requires forall i :: 0 <= i < |words| ==> words[i] == ""
    ensures FirstChars(words) == ""
  {
    if words != [] {
      FirstCharsOfEmpties(words[1..]);
    }
  }

  /** A display name of spaces only has no initials at all: the avatar is blank. */
  lemma BlankNameHasNoInitials(user: User)
    requires HasDisplayName(user)
    requires forall i :: 0 <= i < |user.displayName.value| ==> user.displayName.value[i] == ' '
    ensures Initials(user) == ""
  {
    SplitSpaces(user.displayName.value);
    FirstCharsOfEmpties(Split(user.displayName.value, " "));
  }

  /** The name beside the avatar: the display name, else the user part of the email; nothing
      when both are missing. */
  function Label(user: User): (shown: Option<string>)
    ensures HasDisplayName(user) ==> shown == user.displayName
    ensures !HasDisplayName(user) ==> shown == EmailName(user.email)
  {
    FallbackName(user.displayName, user.email)
  }

  /** Without a display name, "user@domain" is labelled "user". */
  lemma LabelOfAddress(user: User, name: string, domain: string)
    requires !HasDisplayName(user) && user.email == Some(name + "@" + domain) && Lacks(name, '@')
    ensures Label(user) == Some(name)
  {
    EmailNameOf(name, domain);
  }

  /** The points line of the dropdown is shown only when the user has points. */
  predicate ShowStats(user: User)
  {
    user.points.Some?
  }

  /** The streak badge sits inside the points line and is shown only for a known streak above
      zero. */
  function ShowStreak(user: User): (shown: bool)
    ensures shown ==> ShowStats(user)
    ensures shown <==> ShowStats(user) && user.streak.Some? && user.streak.value > 0
  {
    ShowStats(user) && user.streak.Some? && user.streak.value > 0
  }

  /** The widget's view of a stored user document. */
  function UserOf(record: UserRecord): (user: User)
    ensures user.displayName == record.displayName && user.email == record.email
    ensures user.streak == Some(record.streak) && user.points == Some(record.points)
  {
    User(record.displayName, record.email, record.photoURL, Some(record.points), Some(record.streak))
  }

  /** A user who has just been created shows no streak badge, and their widget label is the
      name stored for them whenever one is stored. */
  lemma NewUserWidget(provider: Provider, uid: string, email: Option<string>,
                      displayName: Option<string>, photoURL: Option<string>)
    ensures var user := UserOf(NewUserRecord(provider, uid, email, displayName, photoURL));
      && !ShowStreak(user)
      && (user.displayName.Some? && user.displayName.value != "" ==> Label(user) == user.displayName)
  {
  }
}
