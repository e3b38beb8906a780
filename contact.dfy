/** The request handler of flask_contact/__init__.py, without the web
    framework: `blueprint` fixes the backend and the allowed redirect origins
    once, and `view` decides, for one parsed request, whether to reject it or
    to hand the fields to the backend's `mail`, and what to answer. */
module Contact {
  import opened Wrappers
  import opened Sequences
  import opened AllowedLists
  import opened Backends

  /** What the handler reads from the incoming request: whether it is JSON,
      its fields (JSON object or form), the `Referer` header and the file
      part named `file`. */
  datatype Request = Request(
    isJson: bool,
    fields: Fields,
    referrer: Option<string>,
    file: Option<Upload>)

  /** The three answers: `jsonify(success=True)`, `redirect(target)`, or an
      error status (`abort(401)`, or 500 for an uncaught exception). */
  datatype Response = JsonSuccess | RedirectTo(target: Option<string>) | ErrorStatus(code: int)

  /** What handling one request did: the calls handed to `send_email`, in
      order, and the answer. */
  datatype Outcome = Outcome(sent: seq<SendCall>, response: Response)

  /** The state `blueprint` closes over. */
  datatype Blueprint = Blueprint(backend: EmailBackend, origins: AllowedList)

  /** The default `allowed_origins`. */
  const DefaultOrigins: Config := Wildcard

  /** The reserved field naming the page to return to. */
  const RedirectField: string := "redirect_uri"

  /** `blueprint(email_backend, allowed_origins)`: the origins become an
      `AllowedList` once; `"*"` admits every domain and a falsy value none. */
  function NewBlueprint(backend: EmailBackend, allowedOrigins: Config): (bp: Blueprint)
    ensures bp.backend == backend
    ensures bp.origins == Make(allowedOrigins)
    ensures allowedOrigins == Wildcard ==> forall d :: Contains(bp.origins, d)
    ensures !Truthy(allowedOrigins) ==> forall d :: !Contains(bp.origins, d)
  {
    Blueprint(backend, Make(allowedOrigins))
  }

  /** `fields.pop(key)` on a dict: the value stored under `key`, if any, and
      the fields without it. */
  function Pop(m: Fields, key: string): (r: (Option<string>, Fields))
    ensures |r.1| <= |m|
  {
    if |m| == 0 then (None, [])
    else
      var (v, rest) := Pop(m[1..], key);
      if m[0].0 == key then (Some(m[0].1), rest) else (v, [m[0]] + rest)
  }

  /** `kwargs.pop('redirect_uri', request.referrer)`: a submitted
      `redirect_uri` if there is one, otherwise the referrer. */
  function RedirectTarget(req: Request): (r: Option<string>)
    ensures r.Some? <==> (exists v :: (RedirectField, v) in req.fields) || req.referrer.Some?
    ensures r.Some? && r != req.referrer ==> (RedirectField, r.value) in req.fields
  {
    PopValue(req.fields, RedirectField);
    var uri := Pop(req.fields, RedirectField).0;
    if uri.Some? then uri else req.referrer
  }

  /** The result of `get_domain` as a Python value (`None` stays `None`). */
  function DomainValue(d: Option<string>): Value
  {
    match d
    case Some(s) => Str(s)
    case None => NoneValue
  }

  /** `view()` with `request.json` read as the parsed body it is, and
      `get_domain` given as a parameter: pop the redirect target, reject a
      form whose target's domain is not an allowed origin, otherwise mail the
      remaining fields once and answer. At most one mail is sent, none exactly
      on a 401; JSON is answered with success and a form with a redirect to
      its target. */
  function View(bp: Blueprint, req: Request, getDomain: Option<string> -> Option<string>): (out: Outcome)
    ensures |out.sent| <= 1
    ensures out.sent == [] <==> out.response == ErrorStatus(401)
    ensures req.isJson ==> out.response == JsonSuccess
    ensures !req.isJson && out.sent != [] ==> out.response == RedirectTo(RedirectTarget(req))
  {
    var (uri, kwargs) := Pop(req.fields, RedirectField);
    var target := if uri.Some? then uri else req.referrer;
    if !req.isJson && !Contains(bp.origins, DomainValue(getDomain(target))) then
      Outcome([], ErrorStatus(401))
    else
      var call := Mail(bp.backend, kwargs, req.file);
      Outcome([call], if req.isJson then JsonSuccess else RedirectTo(target))
  }

  /** `view()` as written: its first line calls `request.json()`, but
      `request.json` is the already-parsed body, not a method, so every JSON
      request raises a `TypeError` before anything else happens. */
  function ViewAsWritten(bp: Blueprint, req: Request, getDomain: Option<string> -> Option<string>): (out: Outcome)
    ensures out.response != JsonSuccess
    ensures out.sent != [] ==> !req.isJson
  {
    if req.isJson then Outcome([], ErrorStatus(500)) else View(bp, req, getDomain)
  }

  /** The origin test `view` applies to a form: `'*'` passes every target,
      a falsy configuration none, and an explicit string only a target whose
      domain is one of its tokens. */
  predicate OriginAllowed(bp: Blueprint, req: Request, getDomain: Option<string> -> Option<string>)
    ensures bp.origins.allowedItems == Wildcard ==> OriginAllowed(bp, req, getDomain)
    ensures bp.origins.allowedItems == List([]) ==> !OriginAllowed(bp, req, getDomain)
    ensures bp.origins.allowedItems.Text? && bp.origins.allowedItems != Wildcard && OriginAllowed(bp, req, getDomain) ==>
              getDomain(RedirectTarget(req)).Some? && getDomain(RedirectTarget(req)).value in Split(bp.origins.allowedItems.text, ' ')
  {
    var domain := DomainValue(getDomain(RedirectTarget(req)));
    if bp.origins.allowedItems.Text? && domain.Str? then
      StrValuesMember(Split(bp.origins.allowedItems.text, ' '), domain.s);
      Contains(bp.origins, domain)
    else
      Contains(bp.origins, domain)
  }

  // ---------------------------------------------------------------------------
  // Popping the redirect target

  /** Popping removes every pair with that key and keeps all others. */
  lemma {:induction false} PopMembers(m: Fields, key: string)
    ensures forall p :: p in Pop(m, key).1 <==> p in m && p.0 != key
  {
    if |m| > 0 {
      PopMembers(m[1..], key);
      assert m == [m[0]] + m[1..];
    }
  }

  /** Popping keeps the order of the remaining fields. */
  lemma {:induction false} PopSubsequence(m: Fields, key: string)
    ensures IsSubsequence(Pop(m, key).1, m)
  {
    if |m| > 0 {
      PopSubsequence(m[1..], key);
      var rest := Pop(m[1..], key).1;
      if m[0].0 != key {
        assert Pop(m, key).1 == [m[0]] + rest;
        assert ([m[0]] + rest)[1..] == rest;
      }
    }
  }

  /** The popped value is there exactly when the key is, and it is the value
      stored under the key. */
  lemma {:induction false} PopValue(m: Fields, key: string)
    ensures Pop(m, key).0.Some? <==> exists v :: (key, v) in m
    ensures Pop(m, key).0.Some? ==> (key, Pop(m, key).0.value) in m
  {
    if |m| > 0 {
      PopValue(m[1..], key);
      assert m == [m[0]] + m[1..];
      if m[0].0 == key {
        assert (key, m[0].1) in m;
      } else {
        forall v | (key, v) in m ensures (key, v) in m[1..] {
        }
      }
    }
  }

  /** Every key of a dict occurs once. */
  predicate DistinctKeys(m: Fields)
  {
    forall i, j :: 0 <= i < j < |m| ==> m[i].0 != m[j].0
  }

  /** On a dict, popping a present key removes exactly one pair. */
  lemma {:induction false} PopRemovesOne(m: Fields, key: string, v: string)
    requires DistinctKeys(m) && (key, v) in m
    ensures Pop(m, key).0 == Some(v)
    ensures |Pop(m, key).1| == |m| - 1
  {
    assert m == [m[0]] + m[1..];
    if m[0].0 == key {
      PopAbsent(m[1..], key);
    } else {
      assert (key, v) in m[1..];
      PopRemovesOne(m[1..], key, v);
    }
  }

  /** Popping a key that is not there changes nothing. */
  lemma {:induction false} PopAbsent(m: Fields, key: string)
    requires forall p :: p in m ==> p.0 != key
    ensures Pop(m, key) == (None, m)
  {
    if |m| > 0 {
      PopAbsent(m[1..], key);
      assert m == [m[0]] + m[1..];
    }
  }

  /** The redirect target is the submitted `redirect_uri` when there is one,
      and the referrer otherwise. */
  lemma RedirectTargetChoice(req: Request)
    ensures (exists v :: (RedirectField, v) in req.fields) ==>
              RedirectTarget(req).Some? && (RedirectField, RedirectTarget(req).value) in req.fields
    ensures (forall p :: p in req.fields ==> p.0 != RedirectField) ==> RedirectTarget(req) == req.referrer
  {
    PopValue(req.fields, RedirectField);
    if forall p :: p in req.fields ==> p.0 != RedirectField {
      PopAbsent(req.fields, RedirectField);
    }
  }

  // ---------------------------------------------------------------------------
  // The decision

  /** A form whose target's domain is not an allowed origin is rejected with
      401 and nothing is mailed. */
  lemma ViewRejectsForeignOrigin(bp: Blueprint, req: Request, getDomain: Option<string> -> Option<string>)
    requires !req.isJson && !OriginAllowed(bp, req, getDomain)
    ensures View(bp, req, getDomain) == Outcome([], ErrorStatus(401))
  {
  }

  /** With an explicit list of origins, a form whose target has no domain,
      or a domain that is not one of the listed tokens, is rejected with 401
      and nothing is mailed. */
  lemma ViewRejectsUnlistedDomain(backend: EmailBackend, t: string, req: Request,
                                  getDomain: Option<string> -> Option<string>)
    requires t != "*" && t != ""
    requires !req.isJson
    requires getDomain(RedirectTarget(req)).None? || getDomain(RedirectTarget(req)).value !in Split(t, ' ')
    ensures View(NewBlueprint(backend, Text(t)), req, getDomain) == Outcome([], ErrorStatus(401))
  {
    TextAdmitsTokens(t, DomainValue(getDomain(RedirectTarget(req))));
  }

  /** Every other request is mailed exactly once, with the fields minus
      `redirect_uri` and the request's file. */
  lemma ViewMailsOnce(bp: Blueprint, req: Request, getDomain: Option<string> -> Option<string>)
    requires req.isJson || OriginAllowed(bp, req, getDomain)
    ensures var kwargs := Pop(req.fields, RedirectField).1;
            View(bp, req, getDomain).sent == [Mail(bp.backend, kwargs, req.file)] &&
            forall p :: p in kwargs ==> p.0 != RedirectField
  {
    PopMembers(req.fields, RedirectField);
  }

  /** Mail is sent exactly when the request is not rejected, and at most once. */
  lemma ViewSendsUnlessRejected(bp: Blueprint, req: Request, getDomain: Option<string> -> Option<string>)
    ensures var out := View(bp, req, getDomain);
            |out.sent| <= 1 &&
            (out.sent == [] <==> out.response == ErrorStatus(401)) &&
            (out.sent == [] <==> !req.isJson && !OriginAllowed(bp, req, getDomain))
  {
  }

  /** JSON requests skip the origin check: whatever `get_domain` says, they
      are mailed and answered with success. */
  lemma JsonSkipsOriginCheck(bp: Blueprint, req: Request, d1: Option<string> -> Option<string>,
                             d2: Option<string> -> Option<string>)
    requires req.isJson
    ensures View(bp, req, d1) == View(bp, req, d2)
    ensures View(bp, req, d1).response == JsonSuccess && |View(bp, req, d1).sent| == 1
  {
  }

  /** An accepted form is answered with a redirect to its target. */
  lemma FormRedirectsToTarget(bp: Blueprint, req: Request, getDomain: Option<string> -> Option<string>)
    requires !req.isJson && OriginAllowed(bp, req, getDomain)
    ensures View(bp, req, getDomain).response == RedirectTo(RedirectTarget(req))
  {
  }

  /** With the default origins `"*"` nothing is ever rejected. */
  lemma DefaultOriginsAdmitAll(backend: EmailBackend, req: Request, getDomain: Option<string> -> Option<string>)
    ensures |View(NewBlueprint(backend, DefaultOrigins), req, getDomain).sent| == 1
    ensures View(NewBlueprint(backend, DefaultOrigins), req, getDomain).response != ErrorStatus(401)
  {
  }

  // ---------------------------------------------------------------------------
  // The JSON branch as written

  /** As written, no JSON request is ever mailed or answered with success. */
  lemma JsonFailsAsWritten(bp: Blueprint, req: Request, getDomain: Option<string> -> Option<string>)
    requires req.isJson
    ensures ViewAsWritten(bp, req, getDomain) == Outcome([], ErrorStatus(500))
    ensures View(bp, req, getDomain).response == JsonSuccess
  {
  }

  /** Forms are handled the same as written and as corrected. */
  lemma FormsAgreeAsWritten(bp: Blueprint, req: Request, getDomain: Option<string> -> Option<string>)
    requires !req.isJson
    ensures ViewAsWritten(bp, req, getDomain) == View(bp, req, getDomain)
  {
  }
}
