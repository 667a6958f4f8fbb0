/** Creating an event and formatting it at emission: two passes of the sanitizer (logging.py). */
module LogEvents {
  import opened Basics
  import opened LogSanitizer

  datatype Event = Event(name: string, fields: seq<Field>, traceId: Option<string>)

  // `Rejected` is the constant line that replaces an event which cannot be shown.
  datatype Line = Rejected | Emitted(payload: Value)

  ghost predicate Identified(identifier: string -> bool, e: Event) {
    identifier(e.name) && (e.traceId.Some? ==> identifier(e.traceId.value))
  }

  // `safe_event`: no registered secret is known yet.
  ghost function Create(rules: Rules, identifier: string -> bool, e: Event): Option<Event> {
    if !Identified(identifier, e) || Sanitize(rules, [], Dict(e.fields), 0).None? then None else Some(e)
  }

  ghost function Envelope(level: string, e: Event): Value {
    Dict([Field(Name("event"), Text(e.name)),
          Field(Name("level"), Text(level)),
          Field(Name("trace_id"), if e.traceId.Some? then Text(e.traceId.value) else Null),
          Field(Name("fields"), Dict(e.fields))])
  }

  ghost function Format(rules: Rules, identifier: string -> bool, secrets: seq<string>, level: string, e: Event): Line {
    if Create(rules, identifier, e).None? then Rejected
    else
      var payload := Sanitize(rules, secrets, Envelope(level, e), 0);
      if payload.None? then Rejected else Emitted(payload.value)
  }

  const ENVELOPE: seq<string> := ["event", "level", "trace_id", "fields"]

  // The pattern for hiding keys matches none of the envelope's own keys.
  ghost predicate EnvelopeVisible(rules: Rules) {
    forall k :: k in ENVELOPE ==> !rules.hides(k)
  }

  ghost predicate EnvelopeSafe(rules: Rules, secrets: seq<string>) {
    forall k :: k in ENVELOPE ==> SafeKey(rules, secrets, Name(k))
  }

  lemma {:induction false} FewerSecretsAdmitMore(rules: Rules, secrets: seq<string>, v: Value)
    requires Admissible(rules, secrets, v)
    ensures Admissible(rules, [], v)
    decreases v
  {
    match v
    case Dict(fields) =>
      forall f | f in fields && !rules.hides(f.key.text) ensures Admissible(rules, [], f.value) {
        FewerSecretsAdmitMore(rules, secrets, f.value);
      }
    case List(items) =>
      forall x | x in items ensures Admissible(rules, [], x) {
        FewerSecretsAdmitMore(rules, secrets, x);
      }
    case _ =>
  }

  lemma {:induction false} EnvelopeAdmissible(rules: Rules, secrets: seq<string>, level: string, e: Event)
    requires EnvelopeVisible(rules)
    ensures Admissible(rules, secrets, Envelope(level, e)) <==>
            EnvelopeSafe(rules, secrets) && Admissible(rules, secrets, Dict(e.fields))
  {
    var fields := Envelope(level, e).fields;
    assert ENVELOPE == [fields[0].key.text, fields[1].key.text, fields[2].key.text, fields[3].key.text];
    assert fields[0] in fields && fields[1] in fields && fields[2] in fields && fields[3] in fields;
    assert fields[3].key.text in ENVELOPE && fields[2].key.text in ENVELOPE;
    assert fields[1].key.text in ENVELOPE && fields[0].key.text in ENVELOPE;
  }

  lemma {:induction false} HeightOfFirst(rules: Rules, f: Field, rest: seq<Field>)
    ensures FieldsHeight(rules, [f] + rest) == Max(1 + VisibleHeight(rules, f), FieldsHeight(rules, rest))
  {
    assert ([f] + rest)[1..] == rest;
  }

  lemma {:induction false} EnvelopeHeight(rules: Rules, level: string, e: Event)
    requires EnvelopeVisible(rules)
    ensures Height(rules, Envelope(level, e)) == 1 + Height(rules, Dict(e.fields))
  {
    var fields := Envelope(level, e).fields;
    var a, b, c, d := fields[0], fields[1], fields[2], fields[3];
    assert ENVELOPE[3] == "fields" && "fields" in ENVELOPE;
    assert VisibleHeight(rules, d) == Height(rules, Dict(e.fields));
    assert c.value.Text? || c.value.Null?;
    assert VisibleHeight(rules, c) == 0;
    HeightOfFirst(rules, d, []);
    HeightOfFirst(rules, c, [d] + []);
    HeightOfFirst(rules, b, [c] + ([d] + []));
    HeightOfFirst(rules, a, [b] + ([c] + ([d] + [])));
    assert fields == [a] + ([b] + ([c] + ([d] + [])));
  }

  // The formatter nests the fields one level deeper than creation did, so an event is shown
  // only when its fields stay one level below the limit.
  lemma {:induction false} EmittedExactly(rules: Rules, identifier: string -> bool, secrets: seq<string>, level: string,
                                          e: Event)
    requires EnvelopeVisible(rules)
    ensures Format(rules, identifier, secrets, level, e).Emitted? <==>
            && identifier(e.name) && (e.traceId.Some? ==> identifier(e.traceId.value)) && EnvelopeSafe(rules, secrets)
            && Admissible(rules, secrets, Dict(e.fields)) && Height(rules, Dict(e.fields)) < 20
  {
    SucceedsExactly(rules, [], Dict(e.fields), 0);
    SucceedsExactly(rules, secrets, Envelope(level, e), 0);
    EnvelopeAdmissible(rules, secrets, level, e);
    EnvelopeHeight(rules, level, e);
    if Admissible(rules, secrets, Dict(e.fields)) {
      FewerSecretsAdmitMore(rules, secrets, Dict(e.fields));
    }
  }

  // An event that was created, and in which no key holds a secret, is lost at emission exactly
  // when its fields reach the nesting limit.
  lemma {:induction false} CreatedButRejected(rules: Rules, identifier: string -> bool, secrets: seq<string>,
                                              level: string, e: Event)
    requires EnvelopeVisible(rules) && Create(rules, identifier, e).Some?
    requires EnvelopeSafe(rules, secrets) && Admissible(rules, secrets, Dict(e.fields))
    ensures Format(rules, identifier, secrets, level, e) == Rejected <==> Height(rules, Dict(e.fields)) == 20
  {
    SucceedsExactly(rules, [], Dict(e.fields), 0);
    EmittedExactly(rules, identifier, secrets, level, e);
  }

  ghost function Nested(n: nat): Value {
    if n == 0 then Null else List([Nested(n - 1)])
  }

  lemma {:induction false} NestedHeight(rules: Rules, secrets: seq<string>, n: nat)
    ensures Height(rules, Nested(n)) == n && Admissible(rules, secrets, Nested(n))
  {
    if n > 0 {
      NestedHeight(rules, secrets, n - 1);
      assert Nested(n).items[1..] == [];
    }
  }

  lemma {:induction false} DeepFields(rules: Rules, f: Field)
    requires f == Field(Name("data"), Nested(19)) && !rules.hides("data") && !rules.sensitive("data")
    ensures Height(rules, Dict([f])) == 20 && Admissible(rules, [], Dict([f]))
  {
    NestedHeight(rules, [], 19);
    HeightOfFirst(rules, f, []);
    assert [f] == [f] + [];
    assert SafeKey(rules, [], f.key);
  }

  // Such events exist: a harmless key over nineteen nested lists.
  lemma DeepEventIsLost(rules: Rules, identifier: string -> bool, level: string, name: string)
    requires EnvelopeVisible(rules) && EnvelopeSafe(rules, []) && identifier(name)
    requires !rules.hides("data") && !rules.sensitive("data")
    ensures var e := Event(name, [Field(Name("data"), Nested(19))], None);
            && Create(rules, identifier, e) == Some(e)
            && Format(rules, identifier, [], level, e) == Rejected
  {
    var e := Event(name, [Field(Name("data"), Nested(19))], None);
    DeepFields(rules, e.fields[0]);
    assert e.fields == [e.fields[0]];
    SucceedsExactly(rules, [], Dict(e.fields), 0);
    CreatedButRejected(rules, identifier, [], level, e);
  }

  lemma {:induction false} TextFieldShows(rules: Rules, secrets: seq<string>, key: string, text: string)
    requires !rules.hides(key) && SanitizeField(rules, secrets, Field(Name(key), Text(text)), 0).Some?
    ensures SanitizeField(rules, secrets, Field(Name(key), Text(text)), 0)
         == Some(Field(Name(key), Text(Redact(rules, secrets, text))))
  {
  }

  // The shown record holds the four envelope fields, each text under its own key.
  lemma {:induction false} EmittedShows(rules: Rules, identifier: string -> bool, secrets: seq<string>, level: string,
                                        e: Event)
    requires EnvelopeVisible(rules) && Format(rules, identifier, secrets, level, e).Emitted?
    ensures var shown := Format(rules, identifier, secrets, level, e).payload;
      shown.Dict? && |shown.fields| == 4
      && shown.fields[0] == Field(Name("event"), Text(Redact(rules, secrets, e.name)))
      && shown.fields[1] == Field(Name("level"), Text(Redact(rules, secrets, level)))
      && shown.fields[2].key == Name("trace_id")
      && shown.fields[2].value == (if e.traceId.None? then Null else Text(Redact(rules, secrets, e.traceId.value)))
      && shown.fields[3].key == Name("fields")
      && Sanitize(rules, secrets, Dict(e.fields), 1) == Some(shown.fields[3].value)
  {
    var fields := Envelope(level, e).fields;
    FieldsKeepTheirPlaces(rules, secrets, fields, 0);
    assert fields[0].key.text == ENVELOPE[0] && fields[1].key.text == ENVELOPE[1];
    assert fields[2].key.text == ENVELOPE[2] && fields[3].key.text == ENVELOPE[3];
    assert !rules.hides(fields[0].key.text) && !rules.hides(fields[1].key.text);
    assert !rules.hides(fields[2].key.text) && !rules.hides(fields[3].key.text);
    var shown := Format(rules, identifier, secrets, level, e).payload;
    assert SanitizeField(rules, secrets, fields[0], 0) == Some(shown.fields[0]);
    assert SanitizeField(rules, secrets, fields[1], 0) == Some(shown.fields[1]);
    assert SanitizeField(rules, secrets, fields[2], 0) == Some(shown.fields[2]);
    TextFieldShows(rules, secrets, "event", e.name);
    TextFieldShows(rules, secrets, "level", level);
    if e.traceId.Some? {
      TextFieldShows(rules, secrets, "trace_id", e.traceId.value);
    }
  }

  // Whatever is emitted is clean for every registered secret.
  lemma {:induction false} EmittedIsClean(rules: Rules, identifier: string -> bool, secrets: seq<string>, level: string,
                                          e: Event)
    requires Format(rules, identifier, secrets, level, e).Emitted?
    ensures IsClean(rules, secrets, Format(rules, identifier, secrets, level, e).payload)
  {
    OutputIsClean(rules, secrets, Envelope(level, e), 0);
  }
}
