# flask-contact-blueprint in Dafny

A model of the decision logic of flask-contact-blueprint, a Flask blueprint
that turns a contact-form or JSON submission into one email. Three parts of
the package are modelled:

- `AllowedList` (flask_contact/utils.py) is a membership test built once from
  a configuration value. The string `'*'` admits everything. `None`, `''` and
  `[]` admit nothing. Any other string admits its tokens after splitting on
  single spaces. A list admits its elements. Its `filter` keeps the allowed
  pairs of a dict, or the allowed elements of a list, in order
  (`AllowedLists`, on top of `Sequences` for `str.split` and `str.join`).
- `EmailBackend` (flask_contact/backends.py) builds the subject and the body
  of an email from the submitted fields. It hands them, with the addresses and
  possibly the uploaded file, to the `send_email` hook (`Backends`, on top of
  `Html` for `html.escape`).
- The `view` inside `blueprint` (flask_contact/__init__.py) is modelled
  twice, as pure functions. `Contact.ViewAsWritten` is the code as written.
  Its line 17 calls `request.json()`, and that call fails on every JSON
  request (see "## Findings"). `Contact.View` is the same view with line 17
  reading `request.json` as the parsed body. It pops `redirect_uri`, rejects
  a form whose redirect domain is not an allowed origin, and otherwise mails
  once and answers with JSON success or a redirect. The two agree on every
  form request.

Modelling choices:

- A Python dict is the sequence of its `(key, value)` pairs in iteration
  order. Submitted fields are string pairs.
- Membership questions take a `Value`: a string, an integer or `None`. This
  lets the model state that `1 in AllowedList('*')` holds and that
  `get_domain(None)` is looked up like any other value.
- `str.split(' ')` is modelled exactly: empty pieces are kept, so `'a  b'`
  admits `''`. `Sequences.Join` is its inverse.
- `html.escape(s, quote=True)` is modelled as the per-character replacement
  `&`→`&amp;`, `<`→`&lt;`, `>`→`&gt;`, `"`→`&quot;`, `'`→`&#x27;`. This is
  the same as the library's chain of replacements, because `&` is replaced
  first. `Html.Unescape` decodes exactly these five references and is proved
  to invert the escaping.
- `AllowedList` and `EmailBackend` are never changed after `__init__`, so
  both are datatypes. `get_message` builds its list of lines in a loop, so it
  is the method `Backends.GetMessage`, proved equal to the function
  `Backends.Message`.
- `send_email` does nothing in the base class. Its call is recorded as a
  `Backends.SendCall` value. `Contact.Outcome.sent` lists the calls a request
  caused.
- A callable subject is given by the names of its keyword parameters and by
  what it computes from the arguments it receives. `filter_args`, whose
  source is not part of this model, is modelled as `Backends.ProjectArgs`. It
  keeps the fields whose names are declared parameters, in field order.
- `get_domain` is not defined in flask_contact/utils.py, so it is not part of
  this model. `View` takes it as a function parameter.
- The package has no honeypot check, no reply-to address and no
  attachment policy by extension. It does not drop empty values from the body,
  does not escape a callable's subject, and does not answer 400 when no
  redirect target exists. The code escapes each key and value before joining,
  not the joined body. `Backends.MessageIsEscapedText` proves that both give
  the same text.

## Model

| member | source | states |
|---|---|---|
| `Sequences.Split` | flask_contact/utils.py:15 | `str.split(' ')` gives one more piece than there are spaces, and no piece contains a space |
| `Sequences.JoinSplit` | flask_contact/utils.py:15 | joining the pieces of a split with the separator gives back the original string |
| `Sequences.SplitJoin` | flask_contact/backends.py:39 | splitting `sep.join(parts)` gives back `parts` when no part contains the separator (and there is at least one) |
| `Sequences.Join` | flask_contact/backends.py:39 | Every character of `sep.join(parts)` is either the separator or a character of one of the parts. |
| `Html.Escape` | flask_contact/backends.py:38 | the escaped text contains no `<`, `>`, `"` or `'` and is at least as long as the input |
| `Html.EscapeRoundTrip` | flask_contact/backends.py:38 | escaping loses nothing: decoding the five references gives back the input |
| `Html.UnescapeEscapeAppend` | flask_contact/backends.py:38 | decoding an escaped prefix followed by any text gives back the prefix followed by the decoded text |
| `Html.EscapeAppend` | flask_contact/backends.py:38 | escaping a concatenation is concatenating the escaped parts |
| `Html.EscapeKeepsPlainChar` | flask_contact/backends.py:38 | a character that is neither markup nor used in a reference (a newline, say) occurs in the escaped text iff it occurs in the input |
| `Html.EscapePlain` | flask_contact/backends.py:38 | text without `&`, `<`, `>`, `"`, `'` is left unchanged |
| `Html.EscapeTagExample` | tests/testBackend.py:52-56 | `<a>David</a>` escapes to `&lt;a&gt;David&lt;/a&gt;` |
| `AllowedLists.Truthy` | flask_contact/utils.py:11 | a configuration is truthy iff it is not `None`, `''` or `[]`, the values `allowed_items or []` replaces |
| `AllowedLists.Make` | flask_contact/utils.py:10-11 | the stored configuration is never `None` or `''`; a falsy configuration is stored as `[]` |
| `AllowedLists.Items` | flask_contact/utils.py:13-16 | for a string configuration every item is a string without a space |
| `AllowedLists.Contains` | flask_contact/utils.py:18-22 | `'*'` admits every key, `[]` admits none, and a string configuration admits only strings without a space; the exact sets are stated by the three lemmas below |
| `AllowedLists.WildcardAdmitsAll` | flask_contact/utils.py:20-21 | with `'*'` every key is a member, including `''`, integers and `None` |
| `AllowedLists.FalsyAdmitsNothing` | flask_contact/utils.py:11 | with `None`, `''` or `[]` no key is a member |
| `AllowedLists.TextAdmitsTokens` | flask_contact/utils.py:14-15 | for any other string, a key is a member iff it is a string equal to one of the pieces of `split(' ')` |
| `AllowedLists.SingleTokenAdmitsItself` | flask_contact/utils.py:14-22 | a string without spaces admits exactly itself |
| `AllowedLists.ListAdmitsElements` | flask_contact/utils.py:16-22 | a non-empty list admits exactly its elements; even `['*']` is not a wildcard |
| `AllowedLists.TwoTokenExample` | tests/testUtils.py:24-29 | `'a b'` admits `'a'` and `'b'` but not `'c'` or `''` |
| `AllowedLists.FilterPairs` | flask_contact/utils.py:26-29 | filtering a dict never yields more pairs than the dict has |
| `AllowedLists.FilterPairsMembers` | flask_contact/utils.py:26-29 | a pair is in the filtered dict iff it is in the dict and its key is a member |
| `AllowedLists.FilterPairsSubsequence` | flask_contact/utils.py:26-29 | the filtered pairs keep the dict's iteration order (a subsequence) |
| `AllowedLists.FilterPairsAppend` | flask_contact/utils.py:26-29 | filtering a concatenation is concatenating the filtered parts |
| `AllowedLists.FilterPairsWildcard` | flask_contact/utils.py:20-21 | filtering with `'*'` returns the whole dict |
| `AllowedLists.FilterPairsFalsy` | flask_contact/utils.py:11 | filtering with a falsy configuration returns nothing |
| `AllowedLists.FilterPairsExample` | tests/testUtils.py:35-38 | `AllowedList('a').filter({'a': 'b', 'c': 'd'})` yields `[('a', 'b')]` |
| `AllowedLists.FilterKeys` | flask_contact/utils.py:30-33 | filtering a list never yields more elements than the list has |
| `AllowedLists.FilterKeysMembers` | flask_contact/utils.py:30-33 | an element is in the filtered list iff it is in the list and is a member |
| `AllowedLists.FilterKeysSubsequence` | flask_contact/utils.py:30-33 | the filtered list keeps the list's order (a subsequence) |
| `AllowedLists.FilterKeysAppend` | flask_contact/utils.py:30-33 | filtering a concatenated list is concatenating the filtered parts, so every copy of an allowed element is kept |
| `AllowedLists.FilterKeysWildcard` | flask_contact/utils.py:20-21 | filtering a list with `'*'` returns the whole list |
| `AllowedLists.FilterKeysFalsy` | flask_contact/utils.py:11 | filtering a list with a falsy configuration returns nothing |
| `AllowedLists.FilterKeysExample` | tests/testUtils.py:31-33 | `AllowedList('a').filter(['b', 'a', 'c'])` yields `['a']` |
| `Backends.NewEmailBackend` | flask_contact/backends.py:9-23 | the addresses, the subject and `allow_file` are stored as given, and the allowed fields become `AllowedList(allowed_fields)`; so `"*"` admits every field, a falsy value none, and an explicit string its tokens (`Backends.ExplicitFieldsReachBody`) |
| `Backends.DefaultEmailBackend` | flask_contact/backends.py:9-10 | the defaults `subject=None`, `allowed_fields="*"` and `allow_file=False`: no subject, no file, and every field admitted (`Backends.DefaultBackendBehaviour` gives the resulting email) |
| `Backends.GetSubject` | flask_contact/backends.py:25-31 | a callable subject is applied to the fields that pass the allow-list made of its parameter names; the other two cases are `Backends.SubjectDefault` and `Backends.SubjectLiteral` |
| `Backends.SubjectDefault` | flask_contact/backends.py:27-28 | without a subject, the subject is "New message" for any fields |
| `Backends.SubjectLiteral` | flask_contact/backends.py:29-30 | a string subject is returned unchanged for any fields |
| `Backends.ProjectArgs` | flask_contact/backends.py:31 | the arguments handed to a callable subject are never more than the fields |
| `Backends.ProjectArgsMembers` | flask_contact/backends.py:31 | a callable subject receives exactly the submitted fields whose names it declares |
| `Backends.ProjectArgsIsFilter` | flask_contact/backends.py:31 | the projection equals the `AllowedList` filter built from the list of parameter names |
| `Backends.ProjectArgsAppend` | flask_contact/backends.py:31 | projecting a concatenation is concatenating the projected parts |
| `Backends.SubjectIgnoresUndeclared` | flask_contact/backends.py:31 | a field the callable does not declare (such as `other`) never changes the subject, wherever it stands |
| `Backends.SubjectTemplateExample` | tests/testBackend.py:24-30 | `lambda name='': "Hello " + name` on `{'name': 'David', 'other': 'Bam'}` gives `Hello David` |
| `Backends.Line` | flask_contact/backends.py:38 | one body line is never shorter than the raw `k: v`; `Backends.UnescapeLine`, `Backends.LineIsEscapedRawLine` and `Backends.LineHasNoMarkup` state what it holds |
| `Backends.UnescapeLine` | flask_contact/backends.py:38 | decoding a body line gives back `k: v` |
| `Backends.LineHasNoMarkup` | flask_contact/backends.py:38 | a body line holds no raw `<`, `>`, `"` or `'` |
| `Backends.LineIsEscapedRawLine` | flask_contact/backends.py:38 | escaping the key and the value apart equals escaping the raw line `k: v` |
| `Backends.GetMessage` | flask_contact/backends.py:33-39 | the loop that appends one escaped `"k: v"` line per allowed field, then joins with newlines, returns `Message` |
| `Backends.Message` | flask_contact/backends.py:33-39 | the body is `''` iff no submitted field is allowed, and it contains no raw `<`, `>`, `"` or `'` (proved in `Backends.BodyEmptyIff` and `Backends.BodyHasNoMarkup`) |
| `Backends.MessageReadBack` | flask_contact/backends.py:36-39 | when no allowed key or value has a newline, splitting the body at newlines gives one line per allowed field, in order, and line i decodes to `"k_i: v_i"` |
| `Backends.MessageIsEscapedText` | flask_contact/backends.py:36-39 | escaping each key and value, then joining, gives the escape of the whole joined text |
| `Backends.MessageIgnoresDisallowed` | flask_contact/backends.py:37 | a field the allow-list rejects never reaches the body, wherever it stands |
| `Backends.MessageOfNoFields` | tests/testBackend.py:32-35 | `get_message({})` is `''` |
| `Backends.MessageNameExample` | tests/testBackend.py:37-40 | with the defaults, `get_message({'name': 'David'})` is `name: David` (the cited test is shadowed by two later methods of the same name, so it never runs, but it states the intended behaviour) |
| `Backends.MessageNothingAllowedExample` | tests/testBackend.py:47-50 | with `allowed_fields=''` the body is `''` |
| `Backends.MessageEscapeExample` | tests/testBackend.py:52-56 | `{'name': '<a>David</a>'}` gives `name: &lt;a&gt;David&lt;/a&gt;` |
| `Backends.Mail` | flask_contact/backends.py:46-54 | `send_email` receives the backend's from and to addresses, `GetSubject(b, fields)` and `Message(b, fields)` (whose properties are stated on their own rows), and a file iff `allow_file` is set and a file was given, in which case it is that file; the body has no raw markup |
| `Backends.DefaultBackendBehaviour` | flask_contact/backends.py:9-10 | with the constructor's defaults the subject is "New message", every field is in the body and no file is handed on |
| `Backends.ExplicitFieldsReachBody` | flask_contact/backends.py:22 | with an explicit `allowed_fields` string (such as `'email message'`), exactly the submitted fields named by its tokens pass the body's filter |
| `Backends.MailIgnoresUnlistedField` | flask_contact/backends.py:46-54 | a field neither allowed in the body nor declared by a callable subject changes nothing handed to `send_email` |
| `Backends.MailFileExamples` | tests/testBackend.py:58-70 | `mail({}, f)` calls `send_email('', '', 'New message', '', None)`, or with `f` when `allow_file=True` |
| `Contact.NewBlueprint` | flask_contact/__init__.py:4-13 | the backend is kept and the origins become `AllowedList(allowed_origins)`; so `"*"` admits every domain, a falsy value none, and an explicit string only its tokens (`Contact.ViewRejectsUnlistedDomain`) |
| `Contact.View` | flask_contact/__init__.py:16-29 | with line 17 corrected: at most one mail is sent, none exactly when the answer is 401; a JSON request is answered with success; an accepted form is redirected to `RedirectTarget` (the lemmas below state each case) |
| `Contact.ViewAsWritten` | flask_contact/__init__.py:16-29 | as written, no request is ever answered with JSON success and no JSON request is ever mailed (`Contact.JsonFailsAsWritten`, `Contact.FormsAgreeAsWritten`) |
| `Contact.RedirectTarget` | flask_contact/__init__.py:18 | there is a target iff `redirect_uri` was submitted or there is a referrer; a target other than the referrer is a submitted `redirect_uri` |
| `Contact.Pop` | flask_contact/__init__.py:18 | popping never adds fields |
| `Contact.PopMembers` | flask_contact/__init__.py:18 | after the pop, the fields are exactly the old ones without the popped key |
| `Contact.PopSubsequence` | flask_contact/__init__.py:18 | the pop keeps the order of the remaining fields |
| `Contact.PopValue` | flask_contact/__init__.py:18 | a value is popped iff the key is present, and it is the value stored under the key |
| `Contact.PopRemovesOne` | flask_contact/__init__.py:18 | on a dict (distinct keys), popping a present key returns its value and removes exactly one pair |
| `Contact.PopAbsent` | flask_contact/__init__.py:18 | popping an absent key returns nothing and leaves the fields unchanged |
| `Contact.RedirectTargetChoice` | flask_contact/__init__.py:18 | the redirect target is the submitted `redirect_uri` when present, else the referrer |
| `Contact.OriginAllowed` | flask_contact/__init__.py:21 | the origin test passes every target under `'*'`, none under `[]`, and under an explicit string only a target whose domain exists and is one of its tokens |
| `Contact.ViewRejectsUnlistedDomain` | flask_contact/__init__.py:10-22 | with an explicit `allowed_origins` string, a form whose target has no domain or a domain that is not one of its tokens gets 401 and nothing is mailed |
| `Contact.ViewRejectsForeignOrigin` | flask_contact/__init__.py:21-22 | a form whose target's domain is not an allowed origin gets 401 and nothing is mailed |
| `Contact.ViewMailsOnce` | flask_contact/__init__.py:18-25 | any other request causes exactly one `mail` call, with the fields minus `redirect_uri` and the request's file |
| `Contact.ViewSendsUnlessRejected` | flask_contact/__init__.py:21-25 | at most one mail is sent, and none exactly when the answer is 401, exactly for a form failing the origin check |
| `Contact.JsonSkipsOriginCheck` | flask_contact/__init__.py:21-28 | a JSON request's outcome does not depend on `get_domain`; it is mailed once and answered with success |
| `Contact.FormRedirectsToTarget` | flask_contact/__init__.py:27-29 | an accepted form is answered with a redirect to the resolved target |
| `Contact.DefaultOriginsAdmitAll` | flask_contact/__init__.py:4-13 | in the corrected `View`, with the default `allowed_origins="*"` no request is rejected and each is mailed once (as written, JSON requests still fail with 500) |
| `Contact.JsonFailsAsWritten` | flask_contact/__init__.py:17 | as written, every JSON request ends with 500 and no mail, while the corrected view answers success |
| `Contact.FormsAgreeAsWritten` | flask_contact/__init__.py:17 | for forms the code as written and the corrected view decide the same |

## Findings

| source | as written | input that shows it | evidently intended | confidence | as-written member | corrected member |
|---|---|---|---|---|---|---|
| flask_contact/__init__.py:17 | `request.json()` calls the request's `json` attribute, which Flask provides as the parsed body (a property), not as a method | a JSON request that reaches `view`: calling the parsed dict raises `TypeError`, so the answer is 500 and nothing is mailed | read `request.json` without calling it, so JSON requests are mailed and answered with `success=True` (proved in `Contact.JsonSkipsOriginCheck`) | high; not executed | `Contact.ViewAsWritten` (`Contact.JsonFailsAsWritten`) | `Contact.View` |

## Left out

- Flask itself is not modelled: the `Blueprint`, the route registration, parsing `request.json` and `request.form`, `request.files`, `abort`, `jsonify` and `redirect`. The request arrives parsed as `Contact.Request`, and the answer is a `Contact.Response` value.
- The route declaration at flask_contact/__init__.py:15 passes `methods="POST"` as a string, not a list. Depending on the Flask version, the route is then refused at registration or accepts the methods `P`, `O`, `S`, `T`, so a POST may never reach `view`. Routing is not modelled: `View` and `ViewAsWritten` describe a request that does reach `view`.
- `request.form.to_dict()` keeps the first value of a repeated form field. The model receives the resulting dict.
- `get_domain` and `filter_args` are imported but not defined in the files modelled. `get_domain` is a parameter of `View`. `filter_args` is taken to restrict the fields to the declared parameter names.
- Python's introspection of a callable's signature and defaults is not modelled. A callable subject is its list of parameter names plus a total function of its keyword arguments. An error the callable might raise is not modelled.
- The actual sending done by `send_email` in transports is not modelled. It is a no-op hook here, recorded as a `SendCall`.
- `filter` is a generator in Python. Laziness and single use are not modelled; it is a function on finite sequences.
- `Contact.Pop`: removes every pair with the key and returns the first value. On a real dict, with one pair per key, this is the same as `dict.pop` (`Contact.PopRemovesOne`).
- JSON values that are not strings are not modelled. `html.escape` would raise on them.
- Truthiness is modelled only for `None`, strings and lists (the allow-list forms) and for `allow_file` as a boolean.
- tests/server.py and setup.py are not part of this model. They are wiring and packaging.
