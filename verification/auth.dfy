/** The sign-in page: the e-mail validator, the form and its error line,
    the role picker, and the delayed login that routes to the console or
    the profile. */
module AuthPage {
  import opened Prelude
  import opened Types
  import Store

  // ---------------------------------------------------------------------
  // The e-mail pattern
  // ---------------------------------------------------------------------

  /** A character of an unquoted local-part run: anything but
      `< > ( ) [ ] \ . , ; : @ "` and white space. */
  predicate AtomChar(c: char)
  {
    c != '<' && c != '>' && c != '(' && c != ')' && c != '[' && c != ']' && c != '\\'
    && c != '.' && c != ',' && c != ';' && c != ':' && c != '@' && c != '"' && !IsJsSpace(c)
  }

  /** Dot-separated non-empty runs of atom characters: no leading or
      trailing dot and no two dots in a row. */
  predicate DotAtom(t: string)
  {
    |t| > 0 && t[0] != '.' && t[|t| - 1] != '.'
    && (forall i :: 0 <= i < |t| ==> t[i] == '.' || AtomChar(t[i]))
    && (forall i :: 0 <= i < |t| - 1 ==> !(t[i] == '.' && t[i + 1] == '.'))
  }

  /** The line terminators, which the pattern's `.` does not match. */
  predicate LineTerminator(c: char)
  {
    c == '\n' || c == '\r' || c == '\U{2028}' || c == '\U{2029}'
  }

  /** A double-quoted string with at least one character inside. */
  predicate Quoted(t: string)
  {
    |t| >= 3 && t[0] == '"' && t[|t| - 1] == '"'
    && forall i :: 1 <= i < |t| - 1 ==> !LineTerminator(t[i])
  }

  predicate LocalPart(t: string)
  {
    DotAtom(t) || Quoted(t)
  }

  predicate IsDigit(c: char) { '0' <= c <= '9' }

  predicate IsLetter(c: char) { 'a' <= c <= 'z' || 'A' <= c <= 'Z' }

  predicate LabelChar(c: char) { IsLetter(c) || IsDigit(c) || c == '-' }

  predicate AllOf(s: string, p: char -> bool)
  {
    forall i :: 0 <= i < |s| ==> p(s[i])
  }

  /** One group of an address literal: one to three digits. */
  predicate GroupOk(g: string)
  {
    1 <= |g| <= 3 && AllOf(g, IsDigit)
  }

  /** `[d.d.d.d]` with one to three digits per group; the groups are not
      checked against 255. */
  predicate IpLiteral(d: string)
  {
    |d| >= 2 && d[0] == '[' && d[|d| - 1] == ']'
    && var groups := Split(d[1..|d| - 1], '.');
       |groups| == 4 && forall j :: 0 <= j < 4 ==> GroupOk(groups[j])
  }

  /** One or more labels, each followed by a dot, then a top-level domain
      of at least two letters. */
  predicate HostName(d: string)
  {
    var labels := Split(d, '.');
    |labels| >= 2
    && (forall j :: 0 <= j < |labels| - 1 ==> |labels[j]| >= 1 && AllOf(labels[j], LabelChar))
    && |labels[|labels| - 1]| >= 2 && AllOf(labels[|labels| - 1], IsLetter)
  }

  predicate DomainPart(d: string)
  {
    IpLiteral(d) || HostName(d)
  }

  /** The whole-string pattern, read as a language: some '@' splits the
      string into a local part and a domain. */
  ghost predicate MatchesEmailPattern(s: string)
  {
    exists k :: 0 <= k < |s| && s[k] == '@' && LocalPart(s[..k]) && DomainPart(s[k + 1..])
  }

  /** The position of the last '@'. */
  function LastAt(s: string): (r: Option<nat>)
    ensures r.None? ==> forall j :: 0 <= j < |s| ==> s[j] != '@'
    ensures r.Some? ==> r.value < |s| && s[r.value] == '@' && forall j :: r.value < j < |s| ==> s[j] != '@'
  {
    if s == [] then None
    else if s[|s| - 1] == '@' then Some(|s| - 1)
    else LastAt(s[..|s| - 1])
  }

  /** validateEmail: lower-case, then split at the last '@'. */
  function ValidateEmail(email: string): bool
  {
    var s := Lower(email);
    match LastAt(s)
    case None => false
    case Some(k) => LocalPart(s[..k]) && DomainPart(s[k + 1..])
  }

  lemma {:induction false} JoinMembers(parts: seq<string>, sep: string, c: char)
    requires c in Join(parts, sep)
    ensures c in sep || exists j :: 0 <= j < |parts| && c in parts[j]
  {
    if |parts| > 1 {
      var rest := Join(parts[1..], sep);
      assert Join(parts, sep) == parts[0] + sep + rest;
      if c !in parts[0] && c !in sep {
        JoinMembers(parts[1..], sep, c);
        var j :| 0 <= j < |parts[1..]| && c in parts[1..][j];
        assert parts[j + 1] == parts[1..][j];
      }
    }
  }

  /** A character outside the separator that every piece avoids is not in
      the string. */
  lemma SplitAvoids(s: string, sep: char, c: char)
    requires c != sep
    requires forall j :: 0 <= j < |Split(s, sep)| ==> c !in Split(s, sep)[j]
    ensures c !in s
  {
    JoinSplit(s, sep);
    if c in s {
      JoinMembers(Split(s, sep), [sep], c);
    }
  }

  /** No domain contains '@'. */
  lemma DomainHasNoAt(d: string)
    requires DomainPart(d)
    ensures '@' !in d
  {
    if IpLiteral(d) {
      var inner := d[1..|d| - 1];
      var groups := Split(inner, '.');
      forall j | 0 <= j < |groups| ensures '@' !in groups[j] {
        assert GroupOk(groups[j]);
      }
      SplitAvoids(inner, '.', '@');
      assert d == [d[0]] + inner + [d[|d| - 1]];
    } else {
      var labels := Split(d, '.');
      forall j | 0 <= j < |labels| ensures '@' !in labels[j] {
        if j < |labels| - 1 {
          assert AllOf(labels[j], LabelChar);
        } else {
          assert AllOf(labels[j], IsLetter);
        }
      }
      SplitAvoids(d, '.', '@');
    }
  }

  /** Splitting at the last '@' decides the pattern: the validator accepts
      exactly the strings whose lower-cased form matches it. */
  lemma ValidateEmailMatchesPattern(email: string)
    ensures ValidateEmail(email) <==> MatchesEmailPattern(Lower(email))
  {
    var s := Lower(email);
    if ValidateEmail(email) {
      var k := LastAt(s).value;
      assert 0 <= k < |s| && s[k] == '@' && LocalPart(s[..k]) && DomainPart(s[k + 1..]);
    }
    if MatchesEmailPattern(s) {
      var k :| 0 <= k < |s| && s[k] == '@' && LocalPart(s[..k]) && DomainPart(s[k + 1..]);
      PatternSplitIsLast(s, k);
      ValidateAt(email, k);
    }
  }

  /** The '@' before a well-formed domain is the last one. */
  lemma PatternSplitIsLast(s: string, k: nat)
    requires k < |s| && DomainPart(s[k + 1..])
    ensures forall j :: k < j < |s| ==> s[j] != '@'
  {
    var d := s[k + 1..];
    DomainHasNoAt(d);
    forall j | k < j < |s| ensures s[j] != '@' {
      assert s[j] == d[j - k - 1];
    }
  }

  /** Knowing where the last '@' is fixes the validator's split. */
  lemma ValidateAt(email: string, k: nat)
    requires k < |Lower(email)| && Lower(email)[k] == '@'
    requires forall j :: k < j < |Lower(email)| ==> Lower(email)[j] != '@'
    ensures ValidateEmail(email) <==> LocalPart(Lower(email)[..k]) && DomainPart(Lower(email)[k + 1..])
  {
  }

  /** An address whose lower-cased form is `local@domain`, with no '@' in
      the domain, is valid exactly when both sides are well formed. */
  lemma Decided(e: string, local: string, domain: string)
    requires Lower(e) == local + "@" + domain && '@' !in domain
    ensures ValidateEmail(e) == (LocalPart(local) && DomainPart(domain))
  {
    var s := Lower(e);
    var k := |local|;
    assert s[k] == '@' && s[..k] == local && s[k + 1..] == domain;
    forall j | k < j < |s| ensures s[j] != '@' {
      assert s[j] == domain[j - k - 1];
    }
    ValidateAt(e, k);
  }

  /** A domain with one host: the host must be non-empty and made of
      letters, digits and '-', and the top-level domain must be at least two
      letters. */
  lemma HostNameOf(host: string, tld: string)
    requires '.' !in host && '.' !in tld
    ensures HostName(host + "." + tld)
      <==> |host| >= 1 && AllOf(host, LabelChar) && |tld| >= 2 && AllOf(tld, IsLetter)
  {
    SplitCons(host, '.', tld);
    SplitNone(tld, '.');
    var labels := Split(host + "." + tld, '.');
    assert labels == [host, tld];
    if |host| >= 1 && AllOf(host, LabelChar) && |tld| >= 2 && AllOf(tld, IsLetter) {
      assert forall j :: 0 <= j < |labels| - 1 ==> labels[j] == host;
      assert HostName(host + "." + tld);
    }
    if HostName(host + "." + tld) {
      assert labels[0] == host && labels[1] == tld;
    }
  }

  /** A one-word domain has no top-level domain and is refused. */
  lemma SingleLabelRefused(d: string)
    requires '.' !in d && (|d| == 0 || d[0] != '[')
    ensures !DomainPart(d)
  {
    SplitNone(d, '.');
  }

  /** An address literal is accepted whatever the value of its groups, as
      long as each has one to three digits. */
  lemma AddressLiteralOf(a: string, b: string, c: string, d: string)
    requires '.' !in a && '.' !in b && '.' !in c && '.' !in d
    ensures IpLiteral("[" + a + "." + b + "." + c + "." + d + "]")
      <==> (GroupOk(a) && GroupOk(b) && GroupOk(c) && GroupOk(d))
  {
    var lit := "[" + a + "." + b + "." + c + "." + d + "]";
    assert lit[1..|lit| - 1] == a + "." + (b + "." + (c + "." + d));
    SplitCons(a, '.', b + "." + (c + "." + d));
    SplitCons(b, '.', c + "." + d);
    SplitCons(c, '.', d);
    SplitNone(d, '.');
    var groups := Split(lit[1..|lit| - 1], '.');
    assert groups == [a, b, c, d];
    assert groups[0] == a && groups[1] == b && groups[2] == c && groups[3] == d;
    if GroupOk(a) && GroupOk(b) && GroupOk(c) && GroupOk(d) {
      assert forall j :: 0 <= j < 4 ==> GroupOk(groups[j]);
    }
  }

  /** Case is ignored. */
  lemma AcceptsMixedCase(e: string)
    requires e == "A.B@Cd.CH"
    ensures ValidateEmail(e)
  {
    var local, host, tld := "a.b", "cd", "ch";
    assert Lower(e) == local + "@" + (host + "." + tld);
    HostNameOf(host, tld);
    Decided(e, local, host + "." + tld);
  }

  /** An unquoted local part cannot start with a dot or hold two dots in a
      row. */
  lemma RejectsMisplacedDots(e: string, f: string)
    requires e == ".a@cd.ch" && f == "a..b@cd.ch"
    ensures !ValidateEmail(e) && !ValidateEmail(f)
  {
    var domain := "cd.ch";
    assert Lower(e) == ".a" + "@" + domain;
    Decided(e, ".a", domain);
    var local := "a..b";
    assert Lower(f) == local + "@" + domain;
    assert local[1] == '.' && local[2] == '.';
    Decided(f, local, domain);
  }

  /** A one-letter top-level domain, or none at all, is refused. */
  lemma RejectsShortTopLevelDomain(e: string, f: string)
    requires e == "a@cd.c" && f == "a@cd"
    ensures !ValidateEmail(e) && !ValidateEmail(f)
  {
    var host, tld := "cd", "c";
    assert Lower(e) == "a" + "@" + (host + "." + tld);
    HostNameOf(host, tld);
    Decided(e, "a", host + "." + tld);
    assert Lower(f) == "a" + "@" + host;
    SingleLabelRefused(host);
    Decided(f, "a", host);
  }

  /** Address literals are not range-checked: 999 is accepted. */
  lemma AcceptsUncheckedAddressLiteral(e: string)
    requires e == "a@[999.0.0.1]"
    ensures ValidateEmail(e)
  {
    var g1, g2, g3, g4 := "999", "0", "0", "1";
    var d := "[" + g1 + "." + g2 + "." + g3 + "." + g4 + "]";
    assert Lower(e) == "a" + "@" + d;
    AddressLiteralOf(g1, g2, g3, g4);
    Decided(e, "a", d);
  }

  // ---------------------------------------------------------------------
  // The form
  // ---------------------------------------------------------------------

  datatype Mode = LoginMode | SignupMode

  datatype AuthForm = AuthForm(email: string, password: string, role: UserRole, error: string, isLoading: bool, mode: Mode)

  const InitialForm: AuthForm := AuthForm("", "", USER, "", false, LoginMode)

  /** A login waiting for the page's delay to pass. */
  datatype LoginRequest = LoginRequest(identifier: string, role: UserRole)

  /** The identity the Google login handler signs in with. */
  const GoogleIdentity: string := "google_user@gmail.com"

  /** The message for a rejected address. */
  function InvalidMessage(lang: Language): (m: string)
    ensures m != ""
  {
    if lang == Fa then "فرمت هویت نامعتبر است." else "Invalid identity format."
  }

  /** What the visitor does on the form. The role picker offers only USER
      and ADMIN. No control switches the mode, so it stays LoginMode, and
      no control is wired to the Google login handler, which is kept as an
      event of its own. */
  datatype FormEvent =
    | EditEmail(value: string)
    | EditPassword(value: string)
    | PickRole(admin: bool)
    | Submit(emailAccepted: bool)
    | GoogleLogin

  /** Whether the browser lets a submission through to the page's handler.
      The form validates its own constraints: the button is disabled while
      a login is pending, both fields are required, and the address field
      is of type email. `emailAccepted` is the browser's own e-mail syntax
      check on the address, which is not modelled. */
  predicate BrowserSubmits(f: AuthForm, emailAccepted: bool)
  {
    !f.isLoading && f.email != "" && f.password != "" && emailAccepted
  }

  /** One event on the form: the new form and the login it starts, if any. */
  function Handle(f: AuthForm, lang: Language, e: FormEvent): (r: (AuthForm, Option<LoginRequest>))
    ensures r.1.Some? ==> r.0.isLoading && (e.Submit? || e.GoogleLogin?)
    ensures r.0.role == f.role || e.PickRole?
    ensures r.0.mode == f.mode
    ensures r.0.email == f.email || e.EditEmail?
    ensures r.0.password == f.password || e.EditPassword?
    ensures e.Submit? && !BrowserSubmits(f, e.emailAccepted) ==> r == (f, None)
  {
    match e
    case EditEmail(v) => (f.(email := v, error := ""), None)
    case EditPassword(v) => (f.(password := v, error := ""), None)
    case PickRole(admin) => (f.(role := if admin then ADMIN else USER), None)
    case Submit(accepted) =>
      if !BrowserSubmits(f, accepted) then (f, None)
      else if !ValidateEmail(f.email) then (f.(error := InvalidMessage(lang)), None)
      else (f.(isLoading := true), Some(LoginRequest(f.email, f.role)))
    case GoogleLogin => (f.(isLoading := true), Some(LoginRequest(GoogleIdentity, USER)))
  }

  /** Submitting starts a login exactly when the browser lets the form
      through and the page's own validator accepts the address, with the
      address as typed and the chosen role. A submission the page sees and
      refuses only sets the error line; one the browser blocks changes
      nothing. */
  lemma SubmitGate(f: AuthForm, lang: Language, emailAccepted: bool)
    ensures var r := Handle(f, lang, Submit(emailAccepted));
      (r.1.Some? <==> BrowserSubmits(f, emailAccepted) && ValidateEmail(f.email))
      && (r.1.Some? ==> r.1.value == LoginRequest(f.email, f.role) && r.0.isLoading)
      && (BrowserSubmits(f, emailAccepted) && r.1.None? ==>
            r.0.error != "" && r.0.email == f.email && r.0.isLoading == f.isLoading)
      && (!BrowserSubmits(f, emailAccepted) ==> r.0 == f)
  {
  }

  /** An empty password, a pending login or an address the browser
      refuses never reaches the page's handler, whatever the page's own
      validator would say. */
  lemma BlockedSubmissionsChangeNothing(f: AuthForm, lang: Language, emailAccepted: bool)
    requires f.password == "" || f.isLoading || !emailAccepted
    ensures Handle(f, lang, Submit(emailAccepted)) == (f, None)
  {
  }

  /** Editing either field clears the error line. */
  lemma EditingClearsError(f: AuthForm, lang: Language, v: string)
    ensures Handle(f, lang, EditEmail(v)).0.error == "" && Handle(f, lang, EditEmail(v)).0.email == v
    ensures Handle(f, lang, EditPassword(v)).0.error == "" && Handle(f, lang, EditPassword(v)).0.password == v
  {
  }

  /** Replays form events. */
  function RunForm(f: AuthForm, lang: Language, events: seq<FormEvent>): (r: AuthForm)
    ensures (forall i :: 0 <= i < |events| ==> !events[i].EditEmail?) ==> r.email == f.email
    ensures (forall i :: 0 <= i < |events| ==> !events[i].EditPassword?) ==> r.password == f.password
    decreases |events|
  {
    if events == [] then f else RunForm(Handle(f, lang, events[0]).0, lang, events[1..])
  }

  /** The form can only ever request the USER or ADMIN role. */
  lemma {:induction false} RoleIsSelectable(f: AuthForm, lang: Language, events: seq<FormEvent>)
    requires f.role == USER || f.role == ADMIN
    ensures var g := RunForm(f, lang, events); g.role == USER || g.role == ADMIN
    ensures forall e :: Handle(f, lang, e).1.Some? ==> Handle(f, lang, e).1.value.role != SUPER_ADMIN
    decreases |events|
  {
    if events != [] {
      RoleIsSelectable(Handle(f, lang, events[0]).0, lang, events[1..]);
    }
  }

  /** handleAuthAction after its delay: the login happens and the visitor is
      sent to the console for ADMIN and to the profile otherwise. */
  function CompleteLogin(s: Store.Session, req: LoginRequest, userId: string, year: string): (r: (Store.Session, string))
    ensures r.0.user == Some(Store.Login(req.identifier, req.role, userId, year))
    ensures r.0.cart == s.cart && r.0.orders == s.orders && r.0.language == s.language
    ensures r.1 == "/admin" <==> req.role == ADMIN
    ensures r.1 != "/admin" ==> r.1 == "/profile"
  {
    (Store.Step(s, Store.LoginA(req.identifier, req.role, userId, year)),
     if req.role == ADMIN then "/admin" else "/profile")
  }

  /** For a login the form starts, landing on the console and holding
      administrator rights go together. */
  lemma FormLoginRoutesByRights(s: Store.Session, f: AuthForm, lang: Language, e: FormEvent, userId: string, year: string)
    requires f.role == USER || f.role == ADMIN
    requires Handle(f, lang, e).1.Some?
    ensures var r := CompleteLogin(s, Handle(f, lang, e).1.value, userId, year);
      r.1 == "/admin" <==> Store.IsAdmin(r.0.user)
  {
  }

  /** The Google login handler always asks for the same identity with the USER
      role, whatever the form holds. */
  lemma GoogleLoginIsFixed(f: AuthForm, lang: Language)
    ensures Handle(f, lang, GoogleLogin).1 == Some(LoginRequest(GoogleIdentity, USER))
    ensures Handle(f, lang, GoogleLogin).0.isLoading
  {
  }

  /** A USER login, the Google one included, lands on the profile without
      administrator rights. */
  lemma UserLoginLandsOnProfile(s: Store.Session, identifier: string, userId: string, year: string)
    ensures var r := CompleteLogin(s, LoginRequest(identifier, USER), userId, year);
      r.1 == "/profile" && !Store.IsAdmin(r.0.user) && r.0.user.value.email == identifier
  {
  }

  /** The account it signs in is called google_user. */
  lemma GoogleName(userId: string, year: string)
    ensures Store.Login(GoogleIdentity, USER, userId, year).name == "google_user"
  {
    assert GoogleIdentity == "google_user" + "@" + "gmail.com";
    Store.EmailNameOfAddress("google_user", "gmail.com");
  }
}
