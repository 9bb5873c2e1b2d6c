/**
 * The contact-form endpoint: HTML escaping of user input, the required-field
 * check, the captcha policy, the forwarded-IP extraction and the "N/D"
 * defaults used in the notification e-mail. Sending e-mail, opening the
 * helpdesk issue and the captcha service's HTTP call are outside the model;
 * the captcha service's answer is a parameter.
 */
module ContactRoute {
  import opened Wrappers
  import JsLib
  import Middleware

  // ---------------------------------------------------------------- escaping

  /** The five characters `escapeHtml` replaces. */
  predicate IsHtmlSpecial(c: char) {
    c == '&' || c == '<' || c == '>' || c == '"' || c == '\''
  }

  /** The replacement of one character. */
  function EscapeChar(c: char): (r: string)
    ensures !IsHtmlSpecial(c) ==> r == [c]
    ensures IsHtmlSpecial(c) ==> |r| >= 4 && r[0] == '&' && r[|r| - 1] == ';'
  {
    match c
    case '&' => "&amp;"
    case '<' => "&lt;"
    case '>' => "&gt;"
    case '"' => "&quot;"
    case '\'' => "&#39;"
    case _ => [c]
  }

  /** `escapeHtml`: each character replaced by its entity, left to right. */
  function EscapeHtml(s: string): (r: string)
    ensures |r| >= |s|
  {
    if s == [] then [] else EscapeChar(s[0]) + EscapeHtml(s[1..])
  }

  /** Escaping works character by character, so it distributes over concatenation. */
  lemma {:induction false} EscapeHtmlConcat(a: string, b: string)
    ensures EscapeHtml(a + b) == EscapeHtml(a) + EscapeHtml(b)
  {
    if a != [] {
      assert (a + b)[0] == a[0];
      assert (a + b)[1..] == a[1..] + b;
      var head := EscapeChar(a[0]);
      assert EscapeHtml(a + b) == head + EscapeHtml(a[1..] + b);
      EscapeHtmlConcat(a[1..], b);
      JsLib.AppendRegroup(head, EscapeHtml(a[1..]), EscapeHtml(b), EscapeHtml(a + b));
      assert EscapeHtml(a) == head + EscapeHtml(a[1..]);
    } else {
      assert a + b == b;
    }
  }

  /** A string without any of the five characters is left as it is. */
  lemma {:induction false} EscapeHtmlIdentity(s: string)
    requires forall i :: 0 <= i < |s| ==> !IsHtmlSpecial(s[i])
    ensures EscapeHtml(s) == s
  {
    if s != [] {
      EscapeHtmlIdentity(s[1..]);
    }
  }

  /** Escaped text never contains `<`, `>`, `"` or `'`. */
  lemma {:induction false} EscapeHtmlSafe(s: string)
    ensures forall i :: 0 <= i < |EscapeHtml(s)| ==> EscapeHtml(s)[i] !in {'<', '>', '"', '\''}
  {
    if s != [] {
      EscapeHtmlSafe(s[1..]);
      var head := EscapeChar(s[0]);
      var tail := EscapeHtml(s[1..]);
      assert EscapeHtml(s) == head + tail;
      forall i | 0 <= i < |head + tail| ensures (head + tail)[i] !in {'<', '>', '"', '\''} {
        if i >= |head| {
          assert (head + tail)[i] == tail[i - |head|];
        }
      }
    }
  }

  /** Decoding the five entities `escapeHtml` produces; every other character is copied. */
  function UnescapeHtml(s: string): string
    decreases |s|
  {
    if s == [] then []
    else if JsLib.StartsWith(s, "&amp;") then "&" + UnescapeHtml(s[5..])
    else if JsLib.StartsWith(s, "&lt;") then "<" + UnescapeHtml(s[4..])
    else if JsLib.StartsWith(s, "&gt;") then ">" + UnescapeHtml(s[4..])
    else if JsLib.StartsWith(s, "&quot;") then "\"" + UnescapeHtml(s[6..])
    else if JsLib.StartsWith(s, "&#39;") then "'" + UnescapeHtml(s[5..])
    else [s[0]] + UnescapeHtml(s[1..])
  }

  /** Decoding an entity `escapeHtml` produced yields its character and goes on after it. */
  lemma UnescapeEntity(c: char, rest: string)
    requires IsHtmlSpecial(c)
    ensures UnescapeHtml(EscapeChar(c) + rest) == [c] + UnescapeHtml(rest)
  {
    var e := EscapeChar(c) + rest;
    assert e[..|EscapeChar(c)|] == EscapeChar(c);
    assert e[|EscapeChar(c)|..] == rest;
    if c == '&' {
      assert JsLib.StartsWith(e, "&amp;");
    } else if c == '<' {
      assert !JsLib.StartsWith(e, "&amp;") by { assert e[1] == 'l'; }
      assert JsLib.StartsWith(e, "&lt;");
    } else if c == '>' {
      assert !JsLib.StartsWith(e, "&amp;") by { assert e[1] == 'g'; }
      assert !JsLib.StartsWith(e, "&lt;") by { assert e[1] == 'g'; }
      assert JsLib.StartsWith(e, "&gt;");
    } else if c == '"' {
      assert !JsLib.StartsWith(e, "&amp;") by { assert e[1] == 'q'; }
      assert !JsLib.StartsWith(e, "&lt;") by { assert e[1] == 'q'; }
      assert !JsLib.StartsWith(e, "&gt;") by { assert e[1] == 'q'; }
      assert JsLib.StartsWith(e, "&quot;");
    } else {
      assert !JsLib.StartsWith(e, "&amp;") by { assert e[1] == '#'; }
      assert !JsLib.StartsWith(e, "&lt;") by { assert e[1] == '#'; }
      assert !JsLib.StartsWith(e, "&gt;") by { assert e[1] == '#'; }
      assert !JsLib.StartsWith(e, "&quot;") by { assert e[1] == '#'; }
      assert JsLib.StartsWith(e, "&#39;");
    }
  }

  /** Any other character is copied and decoding goes on after it. */
  lemma UnescapePlain(c: char, rest: string)
    requires !IsHtmlSpecial(c)
    ensures UnescapeHtml([c] + rest) == [c] + UnescapeHtml(rest)
  {
    var e := [c] + rest;
    assert e[0] == c && e[1..] == rest;
    assert !JsLib.StartsWith(e, "&amp;") && !JsLib.StartsWith(e, "&lt;") && !JsLib.StartsWith(e, "&gt;")
        && !JsLib.StartsWith(e, "&quot;") && !JsLib.StartsWith(e, "&#39;") by {
      assert e[0] != '&';
    }
  }

  /** Escaping loses nothing: decoding the escaped text gives the original back. */
  lemma {:induction false} EscapeHtmlRoundTrip(s: string)
    ensures UnescapeHtml(EscapeHtml(s)) == s
  {
    if s != [] {
      EscapeHtmlRoundTrip(s[1..]);
      if IsHtmlSpecial(s[0]) {
        UnescapeEntity(s[0], EscapeHtml(s[1..]));
      } else {
        UnescapePlain(s[0], EscapeHtml(s[1..]));
      }
      assert s == [s[0]] + s[1..];
    }
  }

  // ---------------------------------------------------------------- request

  /** The JSON body; `None` for a field that is missing. */
  datatype ContactBody = ContactBody(
    name: Option<string>,
    email: Option<string>,
    budget: Option<string>,
    services: Option<seq<string>>,
    message: Option<string>,
    cfToken: Option<string>)

  /** A field is truthy: present and non-empty. */
  predicate Present(v: Option<string>) {
    v.Some? && v.value != ""
  }

  /** `v || fallback` on an optional string. */
  function OrElse(v: Option<string>, fallback: string): (r: string)
    ensures Present(v) ==> r == v.value
    ensures !Present(v) ==> r == fallback
  {
    if Present(v) then v.value else fallback
  }

  /** Name, e-mail and message are all present and non-empty. */
  predicate Complete(b: ContactBody) {
    Present(b.name) && Present(b.email) && Present(b.message)
  }

  /** `(x-forwarded-for || '').split(',')[0].trim() || null`: the remote address handed to the captcha check. */
  function RemoteIp(h: Middleware.Headers): (r: Option<string>)
    ensures r.Some? ==> r.value != "" && !JsLib.IsSpace(r.value[0]) && !JsLib.IsSpace(r.value[|r.value| - 1])
    ensures Middleware.ForwardedFor !in h ==> r.None?
  {
    var raw := if Middleware.ForwardedFor in h then h[Middleware.ForwardedFor] else "";
    var first := JsLib.Trim(JsLib.BeforeFirst(raw, ','));
    if first != "" then Some(first) else None
  }

  /** The endpoint sees the same address as the middleware whenever `x-forwarded-for` has a usable first entry. */
  lemma RemoteIpAgreesWithMiddleware(h: Middleware.Headers)
    ensures RemoteIp(h).Some? <==> Middleware.ForwardedFirst(h) != ""
    ensures RemoteIp(h).Some? ==> Middleware.IsClientIp(h, RemoteIp(h).value)
  {
  }

  // ---------------------------------------------------------------- captcha

  /** What the captcha service call produced: it threw (network or parse failure), or replied with `success`. */
  datatype SiteVerify = Threw | Replied(success: bool)

  /**
   * `verifyTurnstile`: with no secret configured every token is accepted;
   * otherwise the service is asked and a failure to ask rejects.
   */
  function VerifyTurnstile(secret: Option<string>, token: string, ip: Option<string>,
                           siteverify: (string, string, Option<string>) -> SiteVerify): (ok: bool)
    ensures !Present(secret) ==> ok
    ensures Present(secret) ==> (ok <==> siteverify(secret.value, token, ip) == Replied(true))
  {
    if !Present(secret) then true
    else
      match siteverify(secret.value, token, ip)
      case Threw => false
      case Replied(success) => success
  }

  // ---------------------------------------------------------------- e-mail fields

  /** The budget as shown in the e-mail: escaped, `N/D` when missing or empty. */
  function BudgetCell(budget: Option<string>): (r: string)
    ensures !Present(budget) ==> r == "N/D"
    ensures Present(budget) ==> r == EscapeHtml(budget.value)
  {
    EscapeHtml(OrElse(budget, "N/D"))
  }

  function EscapeAll(xs: seq<string>): (r: seq<string>)
    ensures |r| == |xs|
    ensures forall i :: 0 <= i < |xs| ==> r[i] == EscapeHtml(xs[i])
  {
    if xs == [] then [] else [EscapeHtml(xs[0])] + EscapeAll(xs[1..])
  }

  /** The services as shown in the e-mail: each escaped, joined with ", ", `N/D` when that comes out empty. */
  function ServicesCell(services: Option<seq<string>>): (r: string)
    ensures r != ""
    ensures services.None? || services == Some([]) || services == Some([""]) ==> r == "N/D"
    ensures services.Some? && services.value != [] && services.value != [""] ==>
              r == JsLib.Join(EscapeAll(services.value), ", ")
  {
    var escaped := EscapeAll(services.GetOr([]));
    JsLib.JoinEmptyIff(escaped, ", ");
    assert |escaped| == 1 ==> (escaped[0] == "" <==> services.value[0] == "");
    var joined := JsLib.Join(escaped, ", ");
    if joined != "" then joined else "N/D"
  }

  /** None of the four characters that could open a tag or close an attribute value. */
  predicate MarkupFree(s: string) {
    forall i :: 0 <= i < |s| ==> s[i] !in {'<', '>', '"', '\''}
  }

  lemma MarkupFreeConcat(a: string, b: string)
    requires MarkupFree(a) && MarkupFree(b)
    ensures MarkupFree(a + b)
  {
    forall i | 0 <= i < |a + b| ensures (a + b)[i] !in {'<', '>', '"', '\''} {
      if i >= |a| {
        assert (a + b)[i] == b[i - |a|];
      }
    }
  }

  /** Joining escaped services with ", " adds no markup. */
  lemma {:induction false} JoinEscapedMarkupFree(xs: seq<string>)
    ensures MarkupFree(JsLib.Join(EscapeAll(xs), ", "))
  {
    var e := EscapeAll(xs);
    if |xs| == 1 {
      EscapeHtmlSafe(xs[0]);
    } else if |xs| >= 2 {
      EscapeHtmlSafe(xs[0]);
      assert EscapeAll(xs[1..]) == e[1..];
      JoinEscapedMarkupFree(xs[1..]);
      assert MarkupFree(", ");
      MarkupFreeConcat(e[0], ", ");
      MarkupFreeConcat(e[0] + ", ", JsLib.Join(e[1..], ", "));
    }
  }

  /** The services cell of the e-mail never carries markup of the sender's. */
  lemma ServicesCellMarkupFree(services: Option<seq<string>>)
    ensures MarkupFree(ServicesCell(services))
  {
    var r := ServicesCell(services);
    if r == "N/D" {
      assert MarkupFree("N/D");
    } else {
      JoinEscapedMarkupFree(services.value);
    }
  }

  /** One non-empty service is shown escaped on its own. */
  lemma ServicesCellSingle(s: string)
    requires s != ""
    ensures ServicesCell(Some([s])) == EscapeHtml(s)
  {
    assert EscapeAll([s]) == [EscapeHtml(s)];
  }

  /**
   * The notes sent to the scheduling link: services joined raw (no escaping,
   * and no `N/D` when there are none), budget raw or `N/D`.
   */
  function CalNotes(services: Option<seq<string>>, budget: Option<string>): (r: string)
    ensures JsLib.StartsWith(r, "Servicios: ")
    ensures JsLib.EndsWith(r, "\nPresupuesto: " + OrElse(budget, "N/D"))
    ensures services.None? || services == Some([]) || services == Some([""]) ==>
              r == "Servicios: \nPresupuesto: " + OrElse(budget, "N/D")
  {
    var joined := JsLib.Join(services.GetOr([]), ", ");
    var head := "Servicios: " + joined;
    var tail := "\nPresupuesto: " + OrElse(budget, "N/D");
    ConcatEnds(head, tail);
    ConcatEnds("Servicios: ", joined);
    assert joined == "" ==> head == "Servicios: ";
    head + tail
  }

  lemma ConcatEnds(a: string, b: string)
    ensures JsLib.StartsWith(a + b, a) && JsLib.EndsWith(a + b, b)
  {
    assert (a + b)[..|a|] == a;
    assert (a + b)[|a|..] == b;
  }

  /** One service goes into the notes as written. */
  lemma CalNotesSingle(s: string, budget: Option<string>)
    ensures CalNotes(Some([s]), budget) == "Servicios: " + s + "\nPresupuesto: " + OrElse(budget, "N/D")
  {
  }

  /** Unlike the e-mail's services cell, the notes keep the sender's markup. */
  lemma CalNotesKeepsMarkup(s: string, budget: Option<string>)
    requires !MarkupFree(s)
    ensures !MarkupFree(CalNotes(Some([s]), budget))
  {
    var k :| 0 <= k < |s| && s[k] in {'<', '>', '"', '\''};
    var r := CalNotes(Some([s]), budget);
    CalNotesSingle(s, budget);
    assert r[11 + k] == s[k];
  }

  /** The scheduling link's query parameters, in insertion order: name, e-mail and the notes. */
  function LinkParams(b: ContactBody): (ps: seq<(string, string)>)
    requires Complete(b)
    ensures ps == [("name", b.name.value), ("email", b.email.value), ("notes", CalNotes(b.services, b.budget))]
  {
    [("name", b.name.value), ("email", b.email.value), ("notes", CalNotes(b.services, b.budget))]
  }

  const CalBase := "https://cal.com/l4zarusdev"

  /** The `calLink` of the reply: the booking page with the serialized parameters appended. */
  function CalLink(b: ContactBody, serialize: seq<(string, string)> -> string): (link: string)
    requires Complete(b)
    ensures JsLib.StartsWith(link, CalBase)
    ensures link[|CalBase|..] == serialize(LinkParams(b))
  {
    CalBase + serialize(LinkParams(b))
  }

  // ---------------------------------------------------------------- POST

  datatype ReplyBody = Error(error: string) | Success(calLink: string)
  datatype Reply = Reply(status: int, body: ReplyBody)

  /**
   * `POST /api/contact`. `body` is `None` when the JSON cannot be read;
   * `serialize` stands for `URLSearchParams.toString` over the link's
   * parameters.
   */
  function Post(body: Option<ContactBody>, h: Middleware.Headers, secret: Option<string>,
                siteverify: (string, string, Option<string>) -> SiteVerify,
                serialize: seq<(string, string)> -> string): (r: Reply)
    ensures body.None? ==> r == Reply(500, Error("Server error"))
  {
    match body
    case None => Reply(500, Error("Server error"))
    case Some(b) =>
      if !Complete(b) then Reply(400, Error("Datos incompletos"))
      else
        var ip := RemoteIp(h);
        if !VerifyTurnstile(secret, OrElse(b.cfToken, ""), ip, siteverify) then Reply(400, Error("Captcha inválido"))
        else
          Reply(200, Success(CalLink(b, serialize)))
  }

  /** The reply is 200 exactly when the body was read, is complete and passed the captcha. */
  lemma PostAcceptsIff(body: Option<ContactBody>, h: Middleware.Headers, secret: Option<string>,
                       siteverify: (string, string, Option<string>) -> SiteVerify,
                       serialize: seq<(string, string)> -> string)
    ensures Post(body, h, secret, siteverify, serialize).status == 200 <==>
              && body.Some? && Complete(body.value)
              && VerifyTurnstile(secret, OrElse(body.value.cfToken, ""), RemoteIp(h), siteverify)
    ensures Post(body, h, secret, siteverify, serialize).status in {200, 400, 500}
  {
  }

  /** An accepted request gets `{ ok: true, calLink }` with the link built from its own fields; every other reply is an error. */
  lemma PostReplyBody(body: Option<ContactBody>, h: Middleware.Headers, secret: Option<string>,
                      siteverify: (string, string, Option<string>) -> SiteVerify,
                      serialize: seq<(string, string)> -> string)
    ensures var r := Post(body, h, secret, siteverify, serialize);
            r.status == 200 ==> body.Some? && Complete(body.value) && r.body == Success(CalLink(body.value, serialize))
    ensures Post(body, h, secret, siteverify, serialize).status != 200 ==> Post(body, h, secret, siteverify, serialize).body.Error?
  {
    if body.Some? && Complete(body.value) && VerifyTurnstile(secret, OrElse(body.value.cfToken, ""), RemoteIp(h), siteverify) {
      assert Post(body, h, secret, siteverify, serialize) == Reply(200, Success(CalLink(body.value, serialize)));
    }
  }

  /** Missing fields are reported before the captcha is looked at: its answer cannot change that reply. */
  lemma IncompleteBeforeCaptcha(b: ContactBody, h: Middleware.Headers, secret: Option<string>,
                                sv1: (string, string, Option<string>) -> SiteVerify,
                                sv2: (string, string, Option<string>) -> SiteVerify,
                                serialize: seq<(string, string)> -> string)
    requires !Complete(b)
    ensures Post(Some(b), h, secret, sv1, serialize) == Post(Some(b), h, secret, sv2, serialize)
                                                    == Reply(400, Error("Datos incompletos"))
  {
  }

  /** A complete body the captcha rejects gets 400 "Captcha inválido". */
  lemma CaptchaRejection(b: ContactBody, h: Middleware.Headers, secret: Option<string>,
                         siteverify: (string, string, Option<string>) -> SiteVerify,
                         serialize: seq<(string, string)> -> string)
    requires Complete(b)
    requires Present(secret) && siteverify(secret.value, OrElse(b.cfToken, ""), RemoteIp(h)) != Replied(true)
    ensures Post(Some(b), h, secret, siteverify, serialize) == Reply(400, Error("Captcha inválido"))
  {
  }
}
