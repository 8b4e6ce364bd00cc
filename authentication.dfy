/**
 * Sign-in, registration with an email-domain allow-list, and the content
 * gating switch of the theme. The WordPress user store and helpers
 * (nonce checks, `is_email`, `email_exists`, `username_exists`,
 * `sanitize_*`, `wp_signon`, `wp_create_user`) are inputs: their answers
 * are given as arguments.
 */
module Authentication {
  import opened Text

  // ---------------------------------------------------------------
  // The allow-list
  // ---------------------------------------------------------------

  /** A row of the `allowed_domains` repeater; `domain` may be unset. */
  datatype Row = Row(domain: Option<string>)

  /** What one row contributes: `strtolower(trim(domain))` with every
      leading '@' removed, when the row and that result are non-empty. */
  function NormalizeRow(row: Row): Option<string> {
    if row.domain.None? || PhpEmpty(row.domain.value) then None
    else
      var d := LTrimChar(Lower(PhpTrim(row.domain.value)), '@');
      if PhpEmpty(d) then None else Some(d)
  }

  /** The list `headless_cms_get_allowed_domains` builds from the rows. */
  function Normalized(rows: seq<Row>): seq<string> {
    if rows == [] then []
    else
      var head := NormalizeRow(rows[0]);
      (if head.Some? then [head.value] else []) + Normalized(rows[1..])
  }

  /** What an entry looks like: lower-case, no leading '@', no trailing
      white space, and neither "" nor "0". */
  predicate NormalEntry(d: string) {
    && IsLower(d)
    && !PhpEmpty(d)
    && d[0] != '@'
    && !IsPhpSpace(d[|d| - 1])
  }

  /** Every entry the normalisation produces is a normal entry. */
  lemma NormalizeRowIsNormal(row: Row)
    ensures NormalizeRow(row).Some? ==> NormalEntry(NormalizeRow(row).value)
  {
    if row.domain.Some? && !PhpEmpty(row.domain.value) {
      var t := PhpTrim(row.domain.value);
      var low := Lower(t);
      var d := LTrimChar(low, '@');
      if !PhpEmpty(d) {
        assert d == low[|low| - |d|..];
        assert d[|d| - 1] == low[|low| - 1];
        assert low[|low| - 1] == LowerChar(t[|t| - 1]);
        forall i | 0 <= i < |d| ensures IsLowerChar(d[i]) {
          assert d[i] == low[|low| - |d| + i];
        }
      }
    }
  }

  lemma NormalizedCons(rows: seq<Row>)
    requires rows != []
    ensures Normalized(rows) == (if NormalizeRow(rows[0]).Some? then [NormalizeRow(rows[0]).value] else []) + Normalized(rows[1..])
  {
  }

  /** The list grows by one row at a time. */
  lemma {:induction false} NormalizedAppend(xs: seq<Row>, ys: seq<Row>)
    ensures Normalized(xs + ys) == Normalized(xs) + Normalized(ys)
  {
    if xs != [] {
      assert (xs + ys)[1..] == xs[1..] + ys;
      NormalizedAppend(xs[1..], ys);
      NormalizedCons(xs + ys);
      NormalizedCons(xs);
    } else {
      assert xs + ys == ys;
    }
  }

  /** The list built from the first `i + 1` rows. */
  lemma NormalizedSnoc(rows: seq<Row>, i: nat)
    requires i < |rows|
    ensures Normalized(rows[..i + 1]) == Normalized(rows[..i]) + (if NormalizeRow(rows[i]).Some? then [NormalizeRow(rows[i]).value] else [])
  {
    assert rows[..i + 1] == rows[..i] + [rows[i]];
    NormalizedAppend(rows[..i], [rows[i]]);
    NormalizedCons([rows[i]]);
  }

  /** Every entry of the allow-list is a normal entry, and there are at
      most as many entries as rows. */
  lemma {:induction false} NormalizedEntries(rows: seq<Row>)
    ensures |Normalized(rows)| <= |rows|
    ensures forall k :: 0 <= k < |Normalized(rows)| ==> NormalEntry(Normalized(rows)[k])
  {
    if rows != [] {
      NormalizedEntries(rows[1..]);
      NormalizeRowIsNormal(rows[0]);
      NormalizedCons(rows);
    }
  }

  /** A domain is allowed iff some row normalises to it: nothing is
      invented and no usable row is lost. */
  lemma {:induction false} NormalizedMembership(rows: seq<Row>, d: string)
    ensures d in Normalized(rows) <==> exists i :: 0 <= i < |rows| && NormalizeRow(rows[i]) == Some(d)
  {
    if rows != [] {
      var rest := rows[1..];
      NormalizedMembership(rest, d);
      NormalizedCons(rows);
      assert d in Normalized(rows) <==> NormalizeRow(rows[0]) == Some(d) || d in Normalized(rest);
      if d in Normalized(rest) {
        var i :| 0 <= i < |rest| && NormalizeRow(rest[i]) == Some(d);
        assert rows[i + 1] == rest[i];
      }
      if exists i :: 0 <= i < |rows| && NormalizeRow(rows[i]) == Some(d) {
        var i :| 0 <= i < |rows| && NormalizeRow(rows[i]) == Some(d);
        if i > 0 {
          assert rest[i - 1] == rows[i];
        }
      }
    }
  }

  /** A leading "@" is cleaned off and the domain lower-cased. */
  lemma NormalizeStripsAt()
    ensures NormalizeRow(Row(Some("@Ab"))) == Some("ab")
  {
    TrimUntouched("@Ab", IsPhpSpace);
    assert Lower("@Ab") == "@ab";
    assert LTrimChar("@ab", '@') == "ab" by {
      assert "@ab"[1..] == "ab";
    }
    assert !PhpEmpty("@Ab") && !PhpEmpty("ab");
  }

  /** A row holding nothing but "@" is dropped, as are unset rows and "0". */
  lemma NormalizeDrops()
    ensures NormalizeRow(Row(Some("@"))) == None
    ensures NormalizeRow(Row(Some("0"))) == None
    ensures NormalizeRow(Row(None)) == None
  {
    TrimUntouched("@", IsPhpSpace);
    assert Lower("@") == "@";
    assert LTrimChar("@", '@') == "" by {
      assert "@"[1..] == "";
    }
    assert !PhpEmpty("@");
  }

  /** `headless_cms_get_allowed_domains`: `acf` says whether `get_field`
      exists; `repeater` is the field's value when it is a non-empty array. */
  method GetAllowedDomains(acf: bool, repeater: Option<seq<Row>>) returns (allowed: seq<string>)
    ensures !acf || repeater.None? ==> allowed == []
    ensures acf && repeater.Some? ==> allowed == Normalized(repeater.value)
  {
    allowed := [];
    if !acf {
      return;
    }
    if repeater.Some? {
      var rows := repeater.value;
      var i := 0;
      while i < |rows|
        invariant 0 <= i <= |rows|
        invariant allowed == Normalized(rows[..i])
      {
        var row := rows[i];
        if row.domain.Some? && !PhpEmpty(row.domain.value) {
          var domain := Lower(PhpTrim(row.domain.value));
          domain := LTrimChar(domain, '@');
          if !PhpEmpty(domain) {
            allowed := allowed + [domain];
          }
        }
        NormalizedSnoc(rows, i);
        i := i + 1;
      }
      assert rows[..|rows|] == rows;
    }
  }

  /** `headless_cms_is_email_domain_allowed`, given the allow-list. */
  function IsEmailDomainAllowed(email: string, allowed: seq<string>): (r: bool)
    ensures allowed == [] ==> r
    ensures r && allowed != [] ==> Count(Lower(email), '@') == 1
  {
    if allowed == [] then true
    else
      var parts := Split(Lower(email), '@');
      |parts| == 2 && parts[1] in allowed
  }

  lemma {:induction false} LowerAppend(a: string, b: string)
    ensures Lower(a + b) == Lower(a) + Lower(b)
  {
    var l, r := Lower(a + b), Lower(a) + Lower(b);
    assert |l| == |r|;
    forall i | 0 <= i < |l| ensures l[i] == r[i] {
      if i < |a| {
        assert (a + b)[i] == a[i];
      } else {
        assert (a + b)[i] == b[i - |a|];
      }
    }
  }

  /** An empty allow-list admits every email. With a non-empty list, an
      address `local@domain` with a single '@' is admitted iff its
      lower-cased domain is listed exactly; an address without exactly one
      '@' is refused. */
  lemma DomainAllowedMeaning(local: string, domain: string, allowed: seq<string>)
    requires Free(local, '@') && Free(domain, '@')
    ensures IsEmailDomainAllowed(local + "@" + domain, [])
    ensures allowed != [] ==> (IsEmailDomainAllowed(local + "@" + domain, allowed) <==> Lower(domain) in allowed)
  {
    var e := local + "@" + domain;
    LowerAppend(local + "@", domain);
    LowerAppend(local, "@");
    assert Lower("@") == "@";
    var ll, ld := Lower(local), Lower(domain);
    assert Free(ll, '@') by {
      forall i | 0 <= i < |ll| ensures ll[i] != '@' {
        assert ll[i] == LowerChar(local[i]);
      }
    }
    assert Free(ld, '@') by {
      forall i | 0 <= i < |ld| ensures ld[i] != '@' {
        assert ld[i] == LowerChar(domain[i]);
      }
    }
    assert Lower(e) == ll + ['@'] + ld;
    SplitFreeThenSep(ll, '@', ld);
    SplitFree(ld, '@');
  }

  /** An address with no '@' or with two of them is refused by a non-empty list. */
  lemma DomainAllowedNeedsOneAt(email: string, allowed: seq<string>)
    requires allowed != [] && Count(Lower(email), '@') != 1
    ensures !IsEmailDomainAllowed(email, allowed)
  {
    SplitTwoParts(Lower(email), '@');
  }

  // ---------------------------------------------------------------
  // Registration
  // ---------------------------------------------------------------

  /** The form fields after sanitising; an unset field is "". */
  datatype RegistrationForm = RegistrationForm(name: string, email: string, password: string, passwordConfirm: string)

  /** The site's answers the checks depend on. */
  datatype RegistrationSite = RegistrationSite(
    usersCanRegister: bool,
    isEmail: bool,
    emailExists: bool,
    allowed: seq<string>)

  /** The error codes of the registration checks, in the order they run. */
  datatype RegistrationError =
    | RegistrationDisabled | EmptyFields | InvalidEmail | EmailExists
    | PasswordMismatch | WeakPassword | DomainNotAllowed

  function Rank(e: RegistrationError): nat {
    match e
    case RegistrationDisabled => 0
    case EmptyFields => 1
    case InvalidEmail => 2
    case EmailExists => 3
    case PasswordMismatch => 4
    case WeakPassword => 5
    case DomainNotAllowed => 6
  }

  /** The `error` query value each code redirects with. */
  function Code(e: RegistrationError): string {
    match e
    case RegistrationDisabled => "registration_disabled"
    case EmptyFields => "empty_fields"
    case InvalidEmail => "invalid_email"
    case EmailExists => "email_exists"
    case PasswordMismatch => "password_mismatch"
    case WeakPassword => "weak_password"
    case DomainNotAllowed => "domain_not_allowed"
  }

  /** The condition under which each check fails, taken on its own. */
  predicate Fails(e: RegistrationError, f: RegistrationForm, site: RegistrationSite) {
    match e
    case RegistrationDisabled => !site.usersCanRegister
    case EmptyFields => PhpEmpty(f.name) || PhpEmpty(f.email) || PhpEmpty(f.password) || PhpEmpty(f.passwordConfirm)
    case InvalidEmail => !site.isEmail
    case EmailExists => site.emailExists
    case PasswordMismatch => f.password != f.passwordConfirm
    case WeakPassword => Utf8Length(f.password) < 8
    case DomainNotAllowed => !IsEmailDomainAllowed(f.email, site.allowed)
  }

  /** The early exits of `headless_cms_handle_registration` before a user is
      created: the first check that fails decides the code. */
  function CheckRegistration(f: RegistrationForm, site: RegistrationSite): (r: Option<RegistrationError>)
    ensures r.Some? ==> Fails(r.value, f, site) && forall e :: Rank(e) < Rank(r.value) ==> !Fails(e, f, site)
    ensures r.None? ==> forall e :: !Fails(e, f, site)
  {
    if !site.usersCanRegister then Some(RegistrationDisabled)
    else if PhpEmpty(f.name) || PhpEmpty(f.email) || PhpEmpty(f.password) || PhpEmpty(f.passwordConfirm) then Some(EmptyFields)
    else if !site.isEmail then Some(InvalidEmail)
    else if site.emailExists then Some(EmailExists)
    else if f.password != f.passwordConfirm then Some(PasswordMismatch)
    else if Utf8Length(f.password) < 8 then Some(WeakPassword)
    else if !IsEmailDomainAllowed(f.email, site.allowed) then Some(DomainNotAllowed)
    else None
  }

  /** A password of seven ASCII characters is weak even if everything else
      is in order; byte length counts, so four two-byte characters pass. */
  lemma WeakPasswordExamples(site: RegistrationSite)
    requires site.usersCanRegister && site.isEmail && !site.emailExists
    ensures CheckRegistration(RegistrationForm("Ada", "a@b.c", "1234567", "1234567"), site) == Some(WeakPassword)
    ensures Utf8Length("\U{00E9}\U{00E9}\U{00E9}\U{00E9}") == 8
  {
  }

  /** `username_exists` tried in turn on base, base1, base2, …. */
  function Candidate(base: string, n: nat): string {
    if n == 0 then base else base + NatToString(n)
  }

  lemma CandidatesDistinct(base: string, m: nat, n: nat)
    requires m != n
    ensures Candidate(base, m) != Candidate(base, n)
  {
    if m != 0 && n != 0 {
      if Candidate(base, m) == Candidate(base, n) {
        assert NatToString(m) == Candidate(base, m)[|base|..];
        assert NatToString(n) == Candidate(base, n)[|base|..];
        NatToStringInjective(m, n);
      }
    }
  }

  /** The set of the first `n` candidates. */
  function Tried(base: string, n: nat): (r: set<string>)
    ensures |r| == n
    ensures forall m: nat :: m < n ==> Candidate(base, m) in r
    ensures forall x :: x in r ==> exists m: nat :: m < n && x == Candidate(base, m)
  {
    if n == 0 then {}
    else
      var prev := Tried(base, n - 1);
      forall m: nat | m < n - 1 ensures Candidate(base, m) != Candidate(base, n - 1) {
        CandidatesDistinct(base, m, n - 1);
      }
      prev + {Candidate(base, n - 1)}
  }

  /** The username loop: the first candidate not already taken. The loop
      ends because each candidate it passes is a different taken name. */
  method UniqueUsername(base: string, taken: set<string>) returns (username: string)
    ensures username !in taken
    ensures exists n: nat :: username == Candidate(base, n) && forall m: nat :: m < n ==> Candidate(base, m) in taken
  {
    username := base;
    var counter := 1;
    while username in taken
      invariant counter >= 1
      invariant username == Candidate(base, counter - 1)
      invariant forall m: nat :: m < counter - 1 ==> Candidate(base, m) in taken
      decreases |taken| - (counter - 1)
    {
      assert Tried(base, counter) <= taken;
      SubsetCardinality(Tried(base, counter), taken);
      username := base + NatToString(counter);
      counter := counter + 1;
    }
  }

  lemma SubsetCardinality(a: set<string>, b: set<string>)
    requires a <= b
    ensures |a| <= |b|
  {
    assert b == a + (b - a);
  }

  /** `current(explode('@', $email))`: the text before the first '@'. */
  function LocalPart(email: string): (r: string)
    ensures Free(r, '@') && |r| <= |email| && r == email[..|r|]
  {
    var parts := Split(email, '@');
    SplitPrefix(email, '@');
    parts[0]
  }

  lemma {:induction false} SplitPrefix(s: string, sep: char)
    ensures |Split(s, sep)[0]| <= |s| && Split(s, sep)[0] == s[..|Split(s, sep)[0]|]
  {
    if s != [] {
      SplitPrefix(s[1..], sep);
    }
  }

  /** `first_name`: the text before the first space. */
  function FirstName(name: string): string {
    Split(name, ' ')[0]
  }

  /** `last_name`: the last space-separated part when there are several,
      else "": a space-free suffix of the name, empty without a space. */
  function LastName(name: string): (r: string)
    ensures |r| <= |name| && r == name[|name| - |r|..]
    ensures Free(r, ' ')
    ensures Count(name, ' ') == 0 ==> r == ""
  {
    var parts := Split(name, ' ');
    JoinSplit(name, ' ');
    JoinEndsWithLast(parts, ' ');
    if |parts| > 1 then parts[|parts| - 1] else ""
  }

  /** The first name is a space-free prefix of the name; a name with no
      space is all first name and has no last name. */
  lemma FirstNameMeaning(name: string)
    ensures |FirstName(name)| <= |name| && FirstName(name) == name[..|FirstName(name)|]
    ensures Free(FirstName(name), ' ')
    ensures Free(name, ' ') ==> FirstName(name) == name && LastName(name) == ""
  {
    SplitPrefix(name, ' ');
    if Free(name, ' ') {
      SplitFree(name, ' ');
    }
  }

  /** Splitting "first last" and, more generally, first, middle parts, last. */
  lemma NameParts(parts: seq<string>)
    requires |parts| >= 2 && forall k :: 0 <= k < |parts| ==> Free(parts[k], ' ')
    ensures FirstName(Join(parts, ' ')) == parts[0]
    ensures LastName(Join(parts, ' ')) == parts[|parts| - 1]
  {
    SplitJoin(parts, ' ');
    NamesOfParts(Join(parts, ' '), parts);
  }

  /** The first and last names read off the parts of the split name. */
  lemma NamesOfParts(name: string, parts: seq<string>)
    requires |parts| >= 2 && Split(name, ' ') == parts
    ensures FirstName(name) == parts[0] && LastName(name) == parts[|parts| - 1]
  {
  }

  /** A leading space leaves an empty first name. The registration handler
      never meets this case: `sanitize_text_field` has already trimmed the
      name it splits. */
  lemma LeadingSpaceEmptiesFirstName(rest: string)
    ensures FirstName(" " + rest) == ""
  {
    assert (" " + rest)[0] == ' ' && (" " + rest)[1..] == rest;
  }

  /** The profile fields the registration writes. */
  datatype Profile = Profile(displayName: string, firstName: string, lastName: string)

  /** The outcome of a registration request. */
  datatype RegistrationOutcome =
    | SecurityDied                       // the nonce check failed: `wp_die`
    | Rejected(code: string, toRegisterPage: bool)
    | Registered(username: string, profile: Profile)

  /** `headless_cms_handle_registration`. `nonceOk` is the nonce check,
      `sanitizeUser` the `sanitize_user(…, true)` filter, `taken` the names
      `username_exists` reports, `createFails` whether `wp_create_user`
      returns an error. */
  method HandleRegistration(nonceOk: bool, f: RegistrationForm, site: RegistrationSite,
                            sanitizeUser: string -> string, taken: set<string>, createFails: bool)
    returns (outcome: RegistrationOutcome)
    ensures !nonceOk <==> outcome == SecurityDied
    ensures nonceOk && CheckRegistration(f, site).Some? ==>
      outcome == Rejected(Code(CheckRegistration(f, site).value), CheckRegistration(f, site).value != RegistrationDisabled)
    ensures nonceOk && CheckRegistration(f, site).None? && createFails ==>
      outcome == Rejected("registration_failed", true)
    ensures outcome.Registered? ==>
      && nonceOk && CheckRegistration(f, site).None? && !createFails
      && outcome.username !in taken
      && (exists n: nat :: outcome.username == Candidate(sanitizeUser(LocalPart(f.email)), n)
           && forall m: nat :: m < n ==> Candidate(sanitizeUser(LocalPart(f.email)), m) in taken)
      && outcome.profile == Profile(f.name, FirstName(f.name), LastName(f.name))
    ensures nonceOk && CheckRegistration(f, site).None? && !createFails ==> outcome.Registered?
  {
    if !nonceOk {
      return SecurityDied;
    }
    var failure := CheckRegistration(f, site);
    if failure.Some? {
      return Rejected(Code(failure.value), failure.value != RegistrationDisabled);
    }
    var username := UniqueUsername(sanitizeUser(LocalPart(f.email)), taken);
    if createFails {
      return Rejected("registration_failed", true);
    }
    outcome := Registered(username, Profile(f.name, FirstName(f.name), LastName(f.name)));
  }

  // ---------------------------------------------------------------
  // Sign-in
  // ---------------------------------------------------------------

  /** The outcome of a sign-in request. */
  datatype LoginOutcome = LoginDied | LoginRejected(code: string) | LoggedIn(redirectTo: string)

  /** `headless_cms_handle_login`. `userFound` is `get_user_by('email', …)`
      succeeding and `signonOk` is `wp_signon` succeeding. */
  function HandleLogin(nonceOk: bool, email: string, password: string, isEmail: bool,
                       userFound: bool, signonOk: bool, redirectTo: string): (r: LoginOutcome)
    ensures r == LoginDied <==> !nonceOk
    ensures nonceOk ==> (r == LoginRejected("empty_fields") <==> PhpEmpty(email) || PhpEmpty(password))
    ensures r.LoggedIn? <==> nonceOk && !PhpEmpty(email) && !PhpEmpty(password) && isEmail && userFound && signonOk
    ensures r.LoggedIn? ==> r.redirectTo == redirectTo
    ensures nonceOk && !PhpEmpty(email) && !PhpEmpty(password) && !isEmail ==> r == LoginRejected("invalid_email")
    ensures nonceOk && !PhpEmpty(email) && !PhpEmpty(password) && isEmail && !(userFound && signonOk) ==>
      r == LoginRejected("invalid_credentials")
  {
    if !nonceOk then LoginDied
    else if PhpEmpty(email) || PhpEmpty(password) then LoginRejected("empty_fields")
    else if !isEmail then LoginRejected("invalid_email")
    else if !userFound then LoginRejected("invalid_credentials")
    else if !signonOk then LoginRejected("invalid_credentials")
    else LoggedIn(redirectTo)
  }

  /** An unknown address and a wrong password are reported alike. */
  lemma LoginDoesNotRevealAccounts(email: string, password: string, redirectTo: string)
    requires !PhpEmpty(email) && !PhpEmpty(password)
    ensures HandleLogin(true, email, password, true, false, false, redirectTo)
         == HandleLogin(true, email, password, true, true, false, redirectTo)
  {
  }

  // ---------------------------------------------------------------
  // Content gating
  // ---------------------------------------------------------------

  /** The value an ACF field may hold. */
  datatype PhpValue = Null | Bool(b: bool) | Int(i: int) | Str(s: string) | Array(size: nat)

  /** PHP's `(bool)` cast. */
  predicate Truthy(v: PhpValue) {
    match v
    case Null => false
    case Bool(b) => b
    case Int(i) => i != 0
    case Str(s) => !PhpEmpty(s)
    case Array(n) => n > 0
  }

  /** `headless_cms_is_content_gating_enabled`: on without ACF or while the
      field is unset; otherwise the field's truthiness. */
  function IsContentGatingEnabled(acf: bool, field: PhpValue): (r: bool)
    ensures !r <==> acf && field != Null && !Truthy(field)
  {
    if !acf then true
    else if field == Null then true
    else Truthy(field)
  }
}
