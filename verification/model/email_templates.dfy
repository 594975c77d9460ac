/** The two e-mails the server sends: the verification link and the
    password-reset link, each pointing at a route of the server itself. */
module EmailTemplates {
  import opened Base
  import opened Strings

  datatype Email = Email(subject: string, html: string)

  lemma ContainsMiddle(a: string, t: string, b: string)
    ensures Contains(a + t + b, t)
  {
    var s := a + t + b;
    assert s[|a|..|a| + |t|] == t;
    assert OccursAt(s, t, |a|);
  }

  lemma ContainsWithin(a: string, s: string, b: string, t: string)
    requires Contains(s, t)
    ensures Contains(a + s + b, t)
  {
    var i :| 0 <= i <= |s| && OccursAt(s, t, i);
    assert i + |t| <= |s| && s[i..i + |t|] == t;
    var w := a + s + b;
    assert w[|a| + i..|a| + i + |t|] == s[i..i + |t|];
    assert OccursAt(w, t, |a| + i);
  }

  /** `a`, then `t`, then `b`. */
  function Around(a: string, t: string, b: string): (r: string)
    ensures Contains(r, t)
    ensures forall u :: Contains(b, u) ==> Contains(r, u)
  {
    ContainsMiddle(a, t, b);
    forall u | Contains(b, u)
      ensures Contains(a + t + b, u)
    {
      ContainsWithin(a + t, b, "", u);
      assert a + t + b + "" == a + t + b;
    }
    a + t + b
  }

  const VerifySubject: string := "Verify Your Email Address"
  const ResetSubject: string := "Reset Your Password"

  /** The route prefixes the links point at. */
  const VerifyPath: string := "/v1/auth/verify-email/"
  const ResetPath: string := "/v1/auth/reset-password/"

  const Indent: string := "\n    "

  function VerifyAnchor(token: string, backendUrl: string): string {
    "<a href=\"" + backendUrl + VerifyPath + token + "\">Verify Email</a>"
  }

  function ResetAnchor(token: string, backendUrl: string): string {
    "<a href=\"" + backendUrl + ResetPath + token + "\">Reset Password</a>"
  }

  /** `verificationEmailTemplate(name, token, backendUrl)`. */
  function VerificationEmailTemplate(name: string, token: string, backendUrl: string): (e: Email)
    ensures e.subject == VerifySubject
    ensures Contains(e.html, "<h1>Welcome " + name + "!</h1>")
    ensures Contains(e.html, VerifyAnchor(token, backendUrl))
    ensures Contains(e.html, "This link will expire in 15 minutes.")
  {
    var thanks := "<p>Thank you for registering. Please verify your email address by clicking the link below:</p>";
    var ignore := "<p>If you didn't register for an account, please ignore this email.</p>";
    Email(VerifySubject,
          Around(Indent, "<h1>Welcome " + name + "!</h1>",
                 Around(Indent + thanks + Indent, VerifyAnchor(token, backendUrl),
                        Around(Indent + "<p>", "This link will expire in 15 minutes.",
                               "</p>" + Indent + ignore + "\n  "))))
  }

  /** `passwordResetTemplate(name, token, backendUrl)`. */
  function PasswordResetTemplate(name: string, token: string, backendUrl: string): (e: Email)
    ensures e.subject == ResetSubject
    ensures Contains(e.html, "<p>Hello " + name + ",</p>")
    ensures Contains(e.html, ResetAnchor(token, backendUrl))
    ensures Contains(e.html, "This link will expire in 15 minutes.")
  {
    var click := "<p>Click the link below to reset your password. ";
    var ignore := "<p>If you did not request this, please ignore this email and make sure your account is secure.</p>";
    Email(ResetSubject,
          Around(Indent + "<h1>Reset Your Password</h1>" + Indent, "<p>Hello " + name + ",</p>",
                 Around(Indent + click, "This link will expire in 15 minutes.",
                        Around("</p>" + Indent, ResetAnchor(token, backendUrl), Indent + ignore + "\n  "))))
  }

  /** Which e-mail to send, with what it is filled in with; `Render` is
      the template function. */
  datatype Letter =
    | VerifyLetter(name: string, token: string, backendUrl: string)
    | ResetLetter(name: string, token: string, backendUrl: string)
  {
    function Render(): (e: Email)
      ensures VerifyLetter? ==> e == VerificationEmailTemplate(name, token, backendUrl)
      ensures ResetLetter? ==> e == PasswordResetTemplate(name, token, backendUrl)
    {
      if VerifyLetter? then VerificationEmailTemplate(name, token, backendUrl)
      else PasswordResetTemplate(name, token, backendUrl)
    }
  }

  /** A character a JSON Web Token may contain: the base64url alphabet and
      the dot between its three parts. */
  predicate TokenChar(c: char) {
    ('a' <= c <= 'z') || ('A' <= c <= 'Z') || ('0' <= c <= '9') || c == '-' || c == '_' || c == '.'
  }

  predicate IsTokenText(t: string) {
    |t| > 0 && forall i :: 0 <= i < |t| ==> TokenChar(t[i])
  }

  /** The `:token` parameter the router takes from a request path under the
      given prefix: one non-empty segment, with no `/`, `?` or `#`, and
      nothing to percent-decode. */
  function RouteToken(path: string, prefix: string): (r: Option<string>)
    ensures r.Some? ==> path == prefix + r.value && IsTokenText(r.value)
  {
    if |prefix| <= |path| && path[..|prefix|] == prefix && IsTokenText(path[|prefix|..]) then
      assert path == prefix + path[|prefix|..];
      Some(path[|prefix|..])
    else None
  }

  /** Following the link of either e-mail hands the route back exactly the
      token the e-mail was built with. */
  lemma LinksCarryToken(token: string)
    requires IsTokenText(token)
    ensures RouteToken(VerifyPath + token, VerifyPath) == Some(token)
    ensures RouteToken(ResetPath + token, ResetPath) == Some(token)
  {
    assert (VerifyPath + token)[..|VerifyPath|] == VerifyPath;
    assert (VerifyPath + token)[|VerifyPath|..] == token;
    assert (ResetPath + token)[..|ResetPath|] == ResetPath;
    assert (ResetPath + token)[|ResetPath|..] == token;
  }
}
