/**
 * The sign-in / registration page: which form it shows, which alert it
 * shows for the `error` and `success` query values the handlers redirect
 * with, and the list of allowed domains it displays.
 */
module LoginPage {
  import opened Text
  import Authentication

  datatype Mode = SignIn | Register

  const Generic := "An error occurred. Please try again."

  /** The alert text for each `error` value; an unknown value gets the
      generic text. */
  function ErrorMessage(code: string): string
  {
    if code == "invalid_credentials" then "Invalid email or password. Please try again."
    else if code == "empty_fields" then "Please fill in all required fields."
    else if code == "invalid_email" then "Please enter a valid email address."
    else if code == "email_exists" then "An account with this email already exists."
    else if code == "domain_not_allowed" then "Registration is restricted to approved email domains only."
    else if code == "password_mismatch" then "Passwords do not match."
    else if code == "weak_password" then "Password must be at least 8 characters long."
    else if code == "registration_failed" then "Registration failed. Please try again."
    else if code == "registration_disabled" then "New user registration is currently disabled."
    else Generic
  }

  /** The codes the page knows. */
  const KnownCodes := ["invalid_credentials", "empty_fields", "invalid_email", "email_exists",
                       "domain_not_allowed", "password_mismatch", "weak_password",
                       "registration_failed", "registration_disabled"]

  /** A value gets the generic text iff the page does not know it. */
  lemma GenericIffUnknown(code: string)
    ensures ErrorMessage(code) == Generic <==> code !in KnownCodes
  {
    if code !in KnownCodes {
      assert code != KnownCodes[0] && code != KnownCodes[1] && code != KnownCodes[2];
      assert code != KnownCodes[3] && code != KnownCodes[4] && code != KnownCodes[5];
      assert code != KnownCodes[6] && code != KnownCodes[7] && code != KnownCodes[8];
    }
  }

  /** Every code the sign-in and registration handlers redirect with has
      its own text on this page. */
  lemma HandlerCodesAreKnown(e: Authentication.RegistrationError)
    ensures Authentication.Code(e) in KnownCodes
    ensures "registration_failed" in KnownCodes && "invalid_credentials" in KnownCodes
  {
    assert KnownCodes[7] == "registration_failed" && KnownCodes[0] == "invalid_credentials";
    match e {
      case RegistrationDisabled => assert KnownCodes[8] == Authentication.Code(e);
      case EmptyFields => assert KnownCodes[1] == Authentication.Code(e);
      case InvalidEmail => assert KnownCodes[2] == Authentication.Code(e);
      case EmailExists => assert KnownCodes[3] == Authentication.Code(e);
      case PasswordMismatch => assert KnownCodes[5] == Authentication.Code(e);
      case WeakPassword => assert KnownCodes[6] == Authentication.Code(e);
      case DomainNotAllowed => assert KnownCodes[4] == Authentication.Code(e);
    }
  }

  /** The alerts of the page; "" means the alert is not shown. */
  datatype Alerts = Alerts(error: string, success: string, info: string)

  /** The page's reading of its `mode`, `error` and `success` query values. */
  method ReadQuery(mode: Option<string>, error: Option<string>, success: Option<string>)
    returns (m: Mode, alerts: Alerts)
    ensures m == Register <==> mode == Some("register") && success != Some("registered")
    ensures error.None? ==> alerts.error == ""
    ensures error.Some? ==> alerts.error == ErrorMessage(error.value)
    ensures alerts.success == (if success == Some("registered") then "Account created successfully! Please log in."
                               else if success == Some("password_reset") then "Password reset email sent. Please check your inbox."
                               else "")
    ensures alerts.info == (if success == Some("logged_out") then "You have been logged out successfully." else "")
  {
    assert "registered"[0] == 'r' && "logged_out"[0] == 'l' && "password_reset"[0] == 'p';
    m := if mode.Some? && mode.value == "register" then Register else SignIn;
    var errorMessage, successMessage, infoMessage := "", "", "";
    if error.Some? {
      errorMessage := ErrorMessage(error.value);
    }
    if success.Some? {
      if success.value == "registered" {
        successMessage := "Account created successfully! Please log in.";
        m := SignIn;
      } else if success.value == "logged_out" {
        infoMessage := "You have been logged out successfully.";
      } else if success.value == "password_reset" {
        successMessage := "Password reset email sent. Please check your inbox.";
      }
    }
    alerts := Alerts(errorMessage, successMessage, infoMessage);
  }

  /** After a registration the page always opens on the sign-in form with
      the success alert, whatever `mode` says. */
  method AfterRegistration(mode: Option<string>) returns (m: Mode, shown: bool)
    ensures m == SignIn && shown
  {
    var alerts;
    m, alerts := ReadQuery(mode, None, Some("registered"));
    shown := alerts.success != "";
  }

  /** A misspelt or upper-case mode opens the sign-in form. */
  method ModeIsExact() returns (m: Mode)
    ensures m == SignIn
  {
    var alerts;
    m, alerts := ReadQuery(Some("Register"), None, None);
  }

  /** What one row of the allow-list repeater shows on this page:
      `strtolower(trim(domain))` when the raw value is non-empty. */
  function DisplayRow(row: Authentication.Row): (r: Option<string>)
    ensures r.None? <==> row.domain.None? || PhpEmpty(row.domain.value)
    ensures r.Some? ==> IsLower(r.value) && HasNoSpaceAtEnds(r.value, IsPhpSpace)
    ensures r.Some? ==> |r.value| <= |row.domain.value|
  {
    if row.domain.None? || PhpEmpty(row.domain.value) then None
    else
      var t := PhpTrim(row.domain.value);
      var low := Lower(t);
      TrimMeaning(row.domain.value, IsPhpSpace);
      assert low != [] ==> low[0] == LowerChar(t[0]) && low[|low| - 1] == LowerChar(t[|t| - 1]);
      Some(low)
  }

  /** The displayed list. */
  function DisplayList(rows: seq<Authentication.Row>): (r: seq<string>)
    ensures |r| <= |rows|
  {
    if rows == [] then []
    else
      var head := DisplayRow(rows[0]);
      (if head.Some? then [head.value] else []) + DisplayList(rows[1..])
  }

  /** The list of a concatenation is the concatenation of the lists. */
  lemma {:induction false} DisplayListAppend(a: seq<Authentication.Row>, b: seq<Authentication.Row>)
    ensures DisplayList(a + b) == DisplayList(a) + DisplayList(b)
  {
    if a == [] {
      assert a + b == b;
    } else {
      var head := DisplayRow(a[0]);
      var first := if head.Some? then [head.value] else [];
      assert (a + b)[0] == a[0];
      assert (a + b)[1..] == a[1..] + b;
      DisplayListAppend(a[1..], b);
      AppendAssoc(first, DisplayList(a[1..]), DisplayList(b));
    }
  }

  /** The list the page builds, `acf` and `repeater` as for the allow-list. */
  method DisplayDomains(acf: bool, repeater: Option<seq<Authentication.Row>>) returns (shown: seq<string>)
    ensures !acf || repeater.None? ==> shown == []
    ensures acf && repeater.Some? ==> shown == DisplayList(repeater.value)
  {
    shown := [];
    if acf && repeater.Some? {
      var rows := repeater.value;
      for i := 0 to |rows|
        invariant shown == DisplayList(rows[..i])
      {
        assert rows[..i + 1] == rows[..i] + [rows[i]];
        DisplayListAppend(rows[..i], [rows[i]]);
        var row := rows[i];
        if row.domain.Some? && !PhpEmpty(row.domain.value) {
          shown := shown + [Lower(PhpTrim(row.domain.value))];
        }
      }
      assert rows[..|rows|] == rows;
    }
  }

  /** The registration check uses what this page shows with the leading
      '@'s removed, and drops what then reads as empty; the page itself
      keeps the '@'. */
  lemma DisplayVersusAllowList(row: Authentication.Row)
    ensures Authentication.NormalizeRow(row).Some? ==> DisplayRow(row).Some?
    ensures DisplayRow(row).Some? ==>
      Authentication.NormalizeRow(row) ==
        (var d := LTrimChar(DisplayRow(row).value, '@'); if PhpEmpty(d) then None else Some(d))
  {
  }

  /** Every displayed entry is lower-case with no blank at either end. */
  lemma {:induction false} DisplayEntriesTrimmed(rows: seq<Authentication.Row>)
    ensures forall k :: 0 <= k < |DisplayList(rows)| ==>
      IsLower(DisplayList(rows)[k]) && HasNoSpaceAtEnds(DisplayList(rows)[k], IsPhpSpace)
  {
    if rows != [] {
      DisplayEntriesTrimmed(rows[1..]);
    }
  }

  /** A row of blanks passes the emptiness test, which comes before the
      trim, so the page shows an empty entry for it. */
  lemma BlankRowShowsEmptyEntry()
    ensures DisplayList([Authentication.Row(Some("  "))]) == [""]
  {
    TrimAllSpace("  ", IsPhpSpace);
  }

  /** A domain entered with its '@' is shown with it. */
  lemma AtIsShown()
    ensures DisplayRow(Authentication.Row(Some("@ab"))) == Some("@ab")
  {
    TrimUntouched("@ab", IsPhpSpace);
    assert Lower("@ab") == "@ab";
  }
}
