/** `EmailBackend` of flask_contact/backends.py: turns the submitted fields into
    the subject and the plain-text body of an email and hands them, with the
    sender, the recipient and possibly the uploaded file, to the `send_email`
    hook. The hook's effect is recorded as a `SendCall` value. */
module Backends {
  import opened Wrappers
  import opened Sequences
  import opened Html
  import opened AllowedLists

  /** Submitted fields: a dict of strings, as its pairs in iteration order. */
  type Fields = seq<(string, string)>

  /** The subject used when none is configured. */
  const DefaultSubject: string := "New message"

  /** The `subject` setting: `None`, a string, or a callable. A callable is
      given by the names of its keyword parameters and by what it computes
      from the keyword arguments it receives (its own defaults included). */
  datatype Subject =
    | NoSubject
    | Literal(text: string)
    | Template(params: seq<string>, render: Fields -> string)

  /** An uploaded file, passed through untouched. */
  datatype Upload = Upload(filename: string, content: seq<bv8>)

  /** The configuration stored by `__init__`; it is never changed afterwards. */
  datatype EmailBackend = EmailBackend(
    fromEmail: string,
    toEmail: string,
    subject: Subject,
    allowedFields: AllowedList,
    allowFile: bool)

  /** One call of the `send_email` hook, with its five arguments. */
  datatype SendCall = SendCall(
    fromEmail: string,
    toEmail: string,
    subject: string,
    message: string,
    file: Option<Upload>)

  /** `EmailBackend(from_email, to_email, subject, allowed_fields, allow_file)`;
      the allowed fields are kept as an `AllowedList`. */
  function NewEmailBackend(fromEmail: string, toEmail: string, subject: Subject,
                           allowedFields: Config, allowFile: bool): (b: EmailBackend)
    ensures b.fromEmail == fromEmail && b.toEmail == toEmail
    ensures b.subject == subject && b.allowFile == allowFile
    ensures b.allowedFields == Make(allowedFields)
    ensures allowedFields == Wildcard ==> forall k :: Contains(b.allowedFields, k)
    ensures !Truthy(allowedFields) ==> forall k :: !Contains(b.allowedFields, k)
  {
    EmailBackend(fromEmail, toEmail, subject, Make(allowedFields), allowFile)
  }

  /** The backend built with the defaults `subject=None`,
      `allowed_fields="*"` and `allow_file=False`. */
  function DefaultEmailBackend(fromEmail: string, toEmail: string): (b: EmailBackend)
    ensures b.fromEmail == fromEmail && b.toEmail == toEmail
    ensures b.subject == NoSubject && !b.allowFile
    ensures forall k :: Contains(b.allowedFields, k)
  {
    NewEmailBackend(fromEmail, toEmail, NoSubject, Wildcard, false)
  }

  // ---------------------------------------------------------------------------
  // Subject

  /** `filter_args(fields, fn)`: the fields whose names are parameters of the
      callable, in the order of the fields. */
  function ProjectArgs(fields: Fields, params: seq<string>): (r: Fields)
    ensures |r| <= |fields|
  {
    if |fields| == 0 then []
    else if fields[0].0 in params then [fields[0]] + ProjectArgs(fields[1..], params)
    else ProjectArgs(fields[1..], params)
  }

  /** The keyword argument `name`, or `default` when it was not passed: how a
      callable subject reads its parameters. */
  function Argument(args: Fields, name: string, default: string): string
  {
    if |args| == 0 then default
    else if args[0].0 == name then args[0].1
    else Argument(args[1..], name, default)
  }

  /** `get_subject(fields)`. A callable receives the fields that pass the
      allow-list made of its parameter names. */
  function GetSubject(b: EmailBackend, fields: Fields): (s: string)
    ensures b.subject.Template? ==>
              s == b.subject.render(FilterPairs(Make(List(StrValues(b.subject.params))), fields))
  {
    match b.subject
    case NoSubject => DefaultSubject
    case Literal(text) => text
    case Template(params, render) =>
      ProjectArgsIsFilter(fields, params);
      render(ProjectArgs(fields, params))
  }

  // ---------------------------------------------------------------------------
  // Body

  /** One line of the body: `"%s: %s" % (html.escape(k), html.escape(v))`.
      It is never shorter than the unescaped `"k: v"`, so never empty;
      `UnescapeLine` decodes it. */
  function Line(k: string, v: string): (l: string)
    ensures |l| >= |k| + |v| + 2
  {
    Escape(k) + ": " + Escape(v)
  }

  /** The lines of the body, one per pair, in order. */
  function Lines(pairs: Fields): seq<string>
  {
    seq(|pairs|, i requires 0 <= i < |pairs| => Line(pairs[i].0, pairs[i].1))
  }

  /** What `get_message(fields)` returns: the lines of the allowed fields
      joined by newlines. It is empty exactly when no field is allowed, and it
      never holds a raw markup character. */
  function Message(b: EmailBackend, fields: Fields): (m: string)
    ensures m == "" <==> FilterPairs(b.allowedFields, fields) == []
    ensures forall c :: c in m ==> c !in Markup
  {
    var allowed := FilterPairs(b.allowedFields, fields);
    BodyEmptyIff(allowed);
    BodyHasNoMarkup(allowed);
    Join(Lines(allowed), '\n')
  }

  /** `get_message(fields)`: appends one line per allowed field, then joins. */
  method GetMessage(b: EmailBackend, fields: Fields) returns (message: string)
    ensures message == Message(b, fields)
  {
    var allowed := FilterPairs(b.allowedFields, fields);
    var lines: seq<string> := [];
    for i := 0 to |allowed|
      invariant |lines| == i
      invariant forall j :: 0 <= j < i ==> lines[j] == Line(allowed[j].0, allowed[j].1)
    {
      var (k, item) := allowed[i];
      lines := lines + [Line(k, item)];
    }
    LinesByIndex(allowed, lines);
    message := Join(lines, '\n');
  }

  /** A list holding the line of every pair, in order, is `Lines`. */
  lemma LinesByIndex(pairs: Fields, lines: seq<string>)
    requires |lines| == |pairs|
    requires forall j :: 0 <= j < |pairs| ==> lines[j] == Line(pairs[j].0, pairs[j].1)
    ensures lines == Lines(pairs)
  {
  }

  // ---------------------------------------------------------------------------
  // Hand-off

  /** `mail(fields, file)`: one call of `send_email` with the configured
      addresses, the subject and the body; the file goes along only when
      files are allowed. The body never holds a raw markup character. */
  function Mail(b: EmailBackend, fields: Fields, file: Option<Upload>): (call: SendCall)
    ensures call.file.Some? <==> b.allowFile && file.Some?
    ensures call.file.Some? ==> call.file == file
    ensures forall c :: c in call.message ==> c !in Markup
    ensures call.fromEmail == b.fromEmail && call.toEmail == b.toEmail
    ensures call.subject == GetSubject(b, fields) && call.message == Message(b, fields)
  {
    SendCall(b.fromEmail, b.toEmail, GetSubject(b, fields), Message(b, fields),
             if b.allowFile then file else None)
  }

  // ---------------------------------------------------------------------------
  // Properties of the subject

  /** Without a configured subject the subject is "New message", whatever the fields. */
  lemma SubjectDefault(b: EmailBackend, fields: Fields)
    requires b.subject == NoSubject
    ensures GetSubject(b, fields) == "New message"
  {
  }

  /** A configured string is the subject as it is, whatever the fields. */
  lemma SubjectLiteral(b: EmailBackend, fields: Fields)
    requires b.subject.Literal?
    ensures GetSubject(b, fields) == b.subject.text
  {
  }

  /** The callable receives exactly the submitted fields it declares. */
  lemma {:induction false} ProjectArgsMembers(fields: Fields, params: seq<string>)
    ensures forall p :: p in ProjectArgs(fields, params) <==> p in fields && p.0 in params
  {
    if |fields| > 0 {
      ProjectArgsMembers(fields[1..], params);
      assert fields == [fields[0]] + fields[1..];
    }
  }

  /** Projecting fields onto the parameters is the allow-list filter of the
      parameter list. */
  lemma {:induction false} ProjectArgsIsFilter(fields: Fields, params: seq<string>)
    ensures ProjectArgs(fields, params) == FilterPairs(Make(List(StrValues(params))), fields)
  {
    if |fields| > 0 {
      ProjectArgsIsFilter(fields[1..], params);
      StrValuesMember(params, fields[0].0);
    }
  }

  /** Projection distributes over concatenation. */
  lemma ProjectArgsAppend(f1: Fields, f2: Fields, params: seq<string>)
    ensures ProjectArgs(f1 + f2, params) == ProjectArgs(f1, params) + ProjectArgs(f2, params)
  {
    ProjectArgsIsFilter(f1 + f2, params);
    ProjectArgsIsFilter(f1, params);
    ProjectArgsIsFilter(f2, params);
    FilterPairsAppend(Make(List(StrValues(params))), f1, f2);
  }

  /** A field the callable does not declare never influences the subject. */
  lemma SubjectIgnoresUndeclared(b: EmailBackend, f1: Fields, f2: Fields, k: string, v: string)
    requires b.subject.Template? && k !in b.subject.params
    ensures GetSubject(b, f1 + [(k, v)] + f2) == GetSubject(b, f1 + f2)
  {
    var ps := b.subject.params;
    ProjectArgsAppend(f1 + [(k, v)], f2, ps);
    ProjectArgsAppend(f1, [(k, v)], ps);
    ProjectArgsAppend(f1, f2, ps);
    assert [(k, v)][1..] == [];
    assert ProjectArgs([(k, v)], ps) == [];
    assert ProjectArgs(f1, ps) + [] == ProjectArgs(f1, ps);
  }

  /** The callable `lambda name='': "Hello " + name` of the test suite gets
      `name` and not `other`. */
  lemma SubjectTemplateExample()
    ensures var b := NewEmailBackend("", "", Template(["name"], args => "Hello " + Argument(args, "name", "")), Wildcard, false);
            GetSubject(b, [("name", "David"), ("other", "Bam")]) == "Hello David"
  {
    var fields: Fields := [("name", "David"), ("other", "Bam")];
    assert fields[1..][1..] == [];
    assert ProjectArgs(fields, ["name"]) == [("name", "David")];
  }

  // ---------------------------------------------------------------------------
  // Properties of the body

  /** The joined lines are empty exactly when there are no pairs. */
  lemma BodyEmptyIff(allowed: Fields)
    ensures Join(Lines(allowed), '\n') == "" <==> allowed == []
  {
    if allowed != [] {
      JoinNonEmpty(Lines(allowed), '\n');
    }
  }

  /** A line holds no raw markup character. */
  lemma LineHasNoMarkup(k: string, v: string)
    ensures forall c :: c in Line(k, v) ==> c !in Markup
  {
    var line := Line(k, v);
    forall c | c in line ensures c !in Markup {
      var j :| 0 <= j < |line| && line[j] == c;
      if j >= |Escape(k)| + 2 {
        assert line[j] == Escape(v)[j - |Escape(k)| - 2];
      }
    }
  }

  /** The joined lines hold no raw `<`, `>`, `"` or `'`: every key and
      value is escaped. */
  lemma BodyHasNoMarkup(allowed: Fields)
    ensures forall c :: c in Join(Lines(allowed), '\n') ==> c !in Markup
  {
    var lines := Lines(allowed);
    forall c | c in Join(lines, '\n') ensures c !in Markup {
      if c != '\n' {
        var t :| t in lines && c in t;
        var i :| 0 <= i < |lines| && lines[i] == t;
        LineHasNoMarkup(allowed[i].0, allowed[i].1);
      }
    }
  }

  /** A line has no newline when its key and value have none. */
  lemma LineHasNoNewline(k: string, v: string)
    requires '\n' !in k && '\n' !in v
    ensures '\n' !in Line(k, v)
  {
    EscapeKeepsPlainChar(k, '\n');
    EscapeKeepsPlainChar(v, '\n');
  }

  lemma UnescapeSeparator(x: string)
    ensures Unescape(": " + x) == ": " + Unescape(x)
  {
    var s := ": " + x;
    assert s[0] == ':' && s[1..] == " " + x;
    assert (" " + x)[0] == ' ' && (" " + x)[1..] == x;
  }

  /** Decoding a line gives back `"k: v"` before escaping. */
  lemma UnescapeLine(k: string, v: string)
    ensures Unescape(Line(k, v)) == k + ": " + v
  {
    AppendAssoc(Escape(k), ": ", Escape(v));
    UnescapeEscapedPair(k, v);
  }

  lemma UnescapeEscapedPair(k: string, v: string)
    ensures Unescape(Escape(k) + (": " + Escape(v))) == k + ": " + v
  {
    UnescapeEscapeAppend(k, ": " + Escape(v));
    UnescapeSeparator(Escape(v));
    EscapeRoundTrip(v);
    AppendAssoc(k, ": ", v);
  }

  /** The body can be read back: when no allowed key or value holds a
      newline, splitting the body at newlines gives one line per allowed
      field, in order, and each line decodes to `"k: v"`. */
  lemma MessageReadBack(b: EmailBackend, fields: Fields)
    requires FilterPairs(b.allowedFields, fields) != []
    requires forall p :: p in FilterPairs(b.allowedFields, fields) ==> '\n' !in p.0 && '\n' !in p.1
    ensures var allowed := FilterPairs(b.allowedFields, fields);
            var lines := Split(Message(b, fields), '\n');
            |lines| == |allowed| &&
            forall i :: 0 <= i < |allowed| ==> Unescape(lines[i]) == allowed[i].0 + ": " + allowed[i].1
  {
    var allowed := FilterPairs(b.allowedFields, fields);
    var lines := Lines(allowed);
    forall t | t in lines ensures '\n' !in t {
      var i :| 0 <= i < |lines| && lines[i] == t;
      assert allowed[i] in allowed;
      LineHasNoNewline(allowed[i].0, allowed[i].1);
    }
    SplitJoin(lines, '\n');
    forall i | 0 <= i < |allowed|
      ensures Unescape(lines[i]) == allowed[i].0 + ": " + allowed[i].1
    {
      UnescapeLine(allowed[i].0, allowed[i].1);
    }
  }

  /** A line before escaping: `"k: v"`. */
  function RawLine(k: string, v: string): string
  {
    k + ": " + v
  }

  function RawLines(pairs: Fields): seq<string>
  {
    seq(|pairs|, i requires 0 <= i < |pairs| => RawLine(pairs[i].0, pairs[i].1))
  }

  /** Escaping the key and the value apart is escaping the raw line. */
  lemma LineIsEscapedRawLine(k: string, v: string)
    ensures Line(k, v) == Escape(RawLine(k, v))
  {
    EscapeAppend(k + ": ", v);
    EscapeAppend(k, ": ");
    EscapePlain(": ");
  }

  lemma {:induction false} EscapeJoinLines(pairs: Fields)
    ensures Escape(Join(RawLines(pairs), '\n')) == Join(Lines(pairs), '\n')
  {
    if |pairs| == 1 {
      LineIsEscapedRawLine(pairs[0].0, pairs[0].1);
    } else if |pairs| > 1 {
      var raw, rest := RawLine(pairs[0].0, pairs[0].1), Join(RawLines(pairs[1..]), '\n');
      assert RawLines(pairs)[1..] == RawLines(pairs[1..]);
      assert Lines(pairs)[1..] == Lines(pairs[1..]);
      EscapeJoinLines(pairs[1..]);
      LineIsEscapedRawLine(pairs[0].0, pairs[0].1);
      EscapeAppend(raw + "\n", rest);
      EscapeAppend(raw, "\n");
      EscapePlain("\n");
    }
  }

  /** Escaping each key and value before joining gives the same body as
      escaping the whole joined text once: the lines' `": "` and the
      newlines between them contain nothing to escape. */
  lemma MessageIsEscapedText(b: EmailBackend, fields: Fields)
    ensures Message(b, fields) == Escape(Join(RawLines(FilterPairs(b.allowedFields, fields)), '\n'))
  {
    EscapeJoinLines(FilterPairs(b.allowedFields, fields));
  }

  /** A field that the allow-list rejects never reaches the body, wherever it
      stands among the fields. */
  lemma MessageIgnoresDisallowed(b: EmailBackend, f1: Fields, f2: Fields, k: string, v: string)
    requires !Contains(b.allowedFields, Str(k))
    ensures Message(b, f1 + [(k, v)] + f2) == Message(b, f1 + f2)
  {
    var a := b.allowedFields;
    FilterPairsAppend(a, f1 + [(k, v)], f2);
    FilterPairsAppend(a, f1, [(k, v)]);
    FilterPairsAppend(a, f1, f2);
    assert [(k, v)][1..] == [];
    assert FilterPairs(a, [(k, v)]) == [];
    assert FilterPairs(a, f1) + [] == FilterPairs(a, f1);
  }

  /** `get_message({})` is the empty string. */
  lemma MessageOfNoFields(b: EmailBackend)
    ensures Message(b, []) == ""
  {
  }

  /** With the default allow-list, `{'name': 'David'}` gives `name: David`. */
  lemma MessageNameExample()
    ensures Message(DefaultEmailBackend("", ""), [("name", "David")]) == "name: David"
  {
    var fields: Fields := [("name", "David")];
    FilterPairsWildcard(fields);
    NameLine();
    assert Lines(fields) == ["name: David"];
  }

  lemma NameLine()
    ensures Line("name", "David") == "name: David"
  {
    EscapePlain("name");
    EscapePlain("David");
  }

  /** With `allowed_fields=''` the body is empty. */
  lemma MessageNothingAllowedExample()
    ensures Message(NewEmailBackend("", "", NoSubject, Text(""), false), [("name", "David")]) == ""
  {
    FilterPairsFalsy(Text(""), [("name", "David")]);
  }

  /** The escaping example of the test suite. */
  lemma MessageEscapeExample()
    ensures Message(DefaultEmailBackend("", ""), [("name", "<a>" + "David" + "</a>")])
         == "name: " + ("&lt;a&gt;" + "David" + "&lt;/a&gt;")
  {
    FilterPairsWildcard([("name", "<a>" + "David" + "</a>")]);
    EscapePlain("name");
    EscapeTagExample();
  }

  // ---------------------------------------------------------------------------
  // Properties of the hand-off

  /** The defaults of `__init__`: subject "New message", every field in the
      body, no file handed on. */
  lemma DefaultBackendBehaviour(fromEmail: string, toEmail: string, fields: Fields, file: Option<Upload>)
    ensures var b := DefaultEmailBackend(fromEmail, toEmail);
            GetSubject(b, fields) == DefaultSubject &&
            FilterPairs(b.allowedFields, fields) == fields &&
            Mail(b, fields, file) == SendCall(fromEmail, toEmail, DefaultSubject, Message(b, fields), None)
  {
    FilterPairsWildcard(fields);
  }

  /** An explicit `allowed_fields` string such as `'email message'` lets
      exactly the fields named by its space-separated tokens into the body. */
  lemma ExplicitFieldsReachBody(fromEmail: string, toEmail: string, subject: Subject,
                                t: string, allowFile: bool, fields: Fields)
    requires t != "*" && t != ""
    ensures var b := NewEmailBackend(fromEmail, toEmail, subject, Text(t), allowFile);
            forall p :: p in FilterPairs(b.allowedFields, fields) <==> p in fields && p.0 in Split(t, ' ')
  {
    var a := Make(Text(t));
    FilterPairsMembers(a, fields);
    forall p | p in fields ensures Contains(a, Str(p.0)) <==> p.0 in Split(t, ' ') {
      TextAdmitsTokens(t, Str(p.0));
    }
  }

  /** A field that is neither allowed in the body nor declared by a callable
      subject changes nothing that is handed to `send_email`. */
  lemma MailIgnoresUnlistedField(b: EmailBackend, f1: Fields, f2: Fields, k: string, v: string, file: Option<Upload>)
    requires !Contains(b.allowedFields, Str(k))
    requires b.subject.Template? ==> k !in b.subject.params
    ensures Mail(b, f1 + [(k, v)] + f2, file) == Mail(b, f1 + f2, file)
  {
    MessageIgnoresDisallowed(b, f1, f2, k, v);
    if b.subject.Template? {
      SubjectIgnoresUndeclared(b, f1, f2, k, v);
    }
  }

  /** The two hand-off examples of the test suite: the file is dropped unless
      `allow_file` is set. */
  lemma MailFileExamples(file: Upload)
    ensures Mail(DefaultEmailBackend("", ""), [], Some(file)) == SendCall("", "", "New message", "", None)
    ensures Mail(NewEmailBackend("", "", NoSubject, Wildcard, true), [], Some(file))
         == SendCall("", "", "New message", "", Some(file))
  {
  }
}
