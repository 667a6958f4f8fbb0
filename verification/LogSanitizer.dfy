/** The log boundary: what `_sanitize` lets through (logging.py). */
module LogSanitizer {
  import opened Basics

  const MAX_DEPTH: nat := 20
  const REDACTED: string := "[REDACTED]"

  datatype Key = Name(text: string) | NotText

  datatype Value =
    | Null
    | Bool(flag: bool)
    | Int(number: int)
    | Float(amount: real)
    | NonFinite
    | Text(text: string)
    | Dict(fields: seq<Field>)
    | List(items: seq<Value>)
    | Unsupported

  datatype Field = Field(key: Key, value: Value)

  // The two patterns: which texts are sensitive as values, and which keys hide their value.
  datatype Rules = Rules(sensitive: string -> bool, hides: string -> bool)

  ghost predicate Occurs(secret: string, text: string) {
    exists before, after :: text == before + secret + after
  }

  ghost predicate OccursAt(secret: string, text: string, i: nat) {
    i + |secret| <= |text| && text[i..i + |secret|] == secret
  }

  // `secret in text`
  method Contains(secret: string, text: string) returns (found: bool)
    ensures found <==> Occurs(secret, text)
  {
    for i := 0 to |text| + 1
      invariant forall m :: 0 <= m < i ==> !OccursAt(secret, text, m)
    {
      if i + |secret| <= |text| && text[i..i + |secret|] == secret {
        assert text == text[..i] + secret + text[i + |secret|..];
        return true;
      }
    }
    forall before, after ensures text != before + secret + after {
      if text == before + secret + after {
        assert text[|before|..|before| + |secret|] == secret;
        assert OccursAt(secret, text, |before|);
        assert false;
      }
    }
    return false;
  }

  ghost predicate Hit(secrets: seq<string>, text: string) {
    exists s :: s in secrets && s != "" && Occurs(s, text)
  }

  ghost predicate IsSensitive(rules: Rules, secrets: seq<string>, text: string) {
    rules.sensitive(text) || Hit(secrets, text)
  }

  ghost function Redact(rules: Rules, secrets: seq<string>, text: string): string {
    if IsSensitive(rules, secrets, text) then REDACTED else text
  }

  ghost predicate SafeKey(rules: Rules, secrets: seq<string>, key: Key) {
    key.Name? && Redact(rules, secrets, key.text) == key.text
  }

  // ------------------------------------------------------------------------ _sanitize

  // None stands for a raised UnsafeLogEvent.
  ghost function Sanitize(rules: Rules, secrets: seq<string>, v: Value, depth: nat): Option<Value>
    decreases v
  {
    if depth > MAX_DEPTH then None
    else
      match v
      case NonFinite => None
      case Unsupported => None
      case Text(text) => Some(Text(Redact(rules, secrets, text)))
      case Dict(fields) =>
        var clean := SanitizeFields(rules, secrets, fields, depth);
        if clean.None? then None else Some(Dict(clean.value))
      case List(items) =>
        var clean := SanitizeItems(rules, secrets, items, depth);
        if clean.None? then None else Some(List(clean.value))
      case _ => Some(v)
  }

  // The key is itself sanitized one level down; a hiding key keeps its value out of sight.
  ghost function SanitizeField(rules: Rules, secrets: seq<string>, f: Field, depth: nat): Option<Field>
    decreases f
  {
    if depth + 1 > MAX_DEPTH || !SafeKey(rules, secrets, f.key) then None
    else if rules.hides(f.key.text) then Some(Field(f.key, Text(REDACTED)))
    else
      var clean := Sanitize(rules, secrets, f.value, depth + 1);
      if clean.None? then None else Some(Field(f.key, clean.value))
  }

  ghost function SanitizeFields(rules: Rules, secrets: seq<string>, fields: seq<Field>, depth: nat): Option<seq<Field>>
    decreases fields
  {
    if fields == [] then Some([])
    else
      var first := SanitizeField(rules, secrets, fields[0], depth);
      var rest := SanitizeFields(rules, secrets, fields[1..], depth);
      if first.None? || rest.None? then None else Some([first.value] + rest.value)
  }

  ghost function SanitizeItems(rules: Rules, secrets: seq<string>, items: seq<Value>, depth: nat): Option<seq<Value>>
    decreases items
  {
    if items == [] then Some([])
    else
      var first := Sanitize(rules, secrets, items[0], depth + 1);
      var rest := SanitizeItems(rules, secrets, items[1..], depth);
      if first.None? || rest.None? then None else Some([first.value] + rest.value)
  }

  ghost function Prepend<T>(done: seq<T>, rest: Option<seq<T>>): Option<seq<T>> {
    if rest.None? then None else Some(done + rest.value)
  }

  lemma PrependOne<T>(done: seq<T>, x: T, rest: Option<seq<T>>)
    ensures Prepend(done, Prepend([x], rest)) == Prepend(done + [x], rest)
    ensures Prepend([], rest) == rest
  {
    if rest.Some? {
      assert done + ([x] + rest.value) == done + [x] + rest.value;
      assert [] + rest.value == rest.value;
    }
  }

  // A text that the pattern or a secret makes sensitive is replaced.
  method SanitizeText(rules: Rules, secrets: seq<string>, text: string) returns (clean: string)
    ensures clean == Redact(rules, secrets, text)
  {
    if rules.sensitive(text) {
      return REDACTED;
    }
    for k := 0 to |secrets|
      invariant forall m :: 0 <= m < k ==> secrets[m] == "" || !Occurs(secrets[m], text)
    {
      var found := Contains(secrets[k], text);
      if secrets[k] != "" && found {
        assert secrets[k] in secrets;
        return REDACTED;
      }
    }
    return text;
  }

  // The code's own form: a loop over the fields and one over the items.
  method SanitizeValue(rules: Rules, secrets: seq<string>, v: Value, depth: nat) returns (clean: Option<Value>)
    ensures clean == Sanitize(rules, secrets, v, depth)
    decreases v
  {
    if depth > MAX_DEPTH {
      return None;
    }
    match v
    case NonFinite => return None;
    case Unsupported => return None;
    case Text(text) =>
      var shown := SanitizeText(rules, secrets, text);
      return Some(Text(shown));
    case Dict(fields) =>
      var result: seq<Field> := [];
      assert fields[0..] == fields;
      PrependOne<Field>([], Field(NotText, Null), SanitizeFields(rules, secrets, fields, depth));
      for i := 0 to |fields|
        invariant SanitizeFields(rules, secrets, fields, depth)
                  == Prepend(result, SanitizeFields(rules, secrets, fields[i..], depth))
      {
        var f := fields[i];
        assert fields[i..][1..] == fields[i + 1..];
        if f.key.NotText? || depth + 1 > MAX_DEPTH {
          return None;
        }
        var key := SanitizeText(rules, secrets, f.key.text);
        if key != f.key.text {
          return None;
        }
        var item := Some(Text(REDACTED));
        if !rules.hides(f.key.text) {
          item := SanitizeValue(rules, secrets, f.value, depth + 1);
        }
        if item.None? {
          return None;
        }
        PrependOne(result, Field(f.key, item.value), SanitizeFields(rules, secrets, fields[i + 1..], depth));
        result := result + [Field(f.key, item.value)];
      }
      assert fields[|fields|..] == [] && result + [] == result;
      return Some(Dict(result));
    case List(items) =>
      var result: seq<Value> := [];
      assert items[0..] == items;
      PrependOne<Value>([], Null, SanitizeItems(rules, secrets, items, depth));
      for i := 0 to |items|
        invariant SanitizeItems(rules, secrets, items, depth)
                  == Prepend(result, SanitizeItems(rules, secrets, items[i..], depth))
      {
        assert items[i..][1..] == items[i + 1..];
        var item := SanitizeValue(rules, secrets, items[i], depth + 1);
        if item.None? {
          return None;
        }
        PrependOne(result, item.value, SanitizeItems(rules, secrets, items[i + 1..], depth));
        result := result + [item.value];
      }
      assert items[|items|..] == [] && result + [] == result;
      return Some(List(result));
    case _ => return Some(v);
  }

  // Every field stays in its place, sanitized on its own.
  lemma {:induction false} FieldsKeepTheirPlaces(rules: Rules, secrets: seq<string>, fields: seq<Field>, depth: nat)
    requires SanitizeFields(rules, secrets, fields, depth).Some?
    ensures var clean := SanitizeFields(rules, secrets, fields, depth).value;
      |clean| == |fields|
      && forall k :: 0 <= k < |fields| ==> SanitizeField(rules, secrets, fields[k], depth) == Some(clean[k])
  {
    if fields != [] {
      FieldsKeepTheirPlaces(rules, secrets, fields[1..], depth);
    }
  }

  // A text is replaced by the mark exactly when the pattern matches it or it holds a secret.
  lemma {:induction false} TextIsMarkedIff(rules: Rules, secrets: seq<string>, text: string)
    requires text != "[REDACTED]"
    ensures Sanitize(rules, secrets, Text(text), 0) == Some(Text("[REDACTED]")) <==>
      rules.sensitive(text)
      || exists s, before, after :: s in secrets && s != "" && text == before + s + after
    ensures Sanitize(rules, secrets, Text(text), 0) in {Some(Text("[REDACTED]")), Some(Text(text))}
  {
    if s, before, after :| s in secrets && s != "" && text == before + s + after {
      assert Occurs(s, text);
    }
    if s :| s in secrets && s != "" && Occurs(s, text) {
      var before, after :| text == before + s + after;
    }
  }

  // ------------------------------------------------------------------------- composition

  lemma HitSplits(s: seq<string>, t: seq<string>, text: string)
    ensures Hit(s + t, text) <==> Hit(s, text) || Hit(t, text)
  {
    forall x ensures x in s + t <==> x in s || x in t {
    }
  }

  lemma RedactTwice(rules: Rules, s: seq<string>, t: seq<string>, text: string)
    ensures Redact(rules, t, Redact(rules, s, text)) == Redact(rules, s + t, text)
    ensures Redact(rules, s + t, text) == text <==> Redact(rules, s, text) == text && Redact(rules, t, text) == text
  {
    HitSplits(s, t, text);
  }

  // Secrets that become known later: sanitizing with S and then with T is sanitizing once
  // with both, and each succeeds when the other does.
  ghost function Then(rules: Rules, t: seq<string>, v: Option<Value>, depth: nat): Option<Value> {
    if v.None? then None else Sanitize(rules, t, v.value, depth)
  }

  lemma {:induction false} SanitizeComposes(rules: Rules, s: seq<string>, t: seq<string>, v: Value, depth: nat)
    ensures Then(rules, t, Sanitize(rules, s, v, depth), depth) == Sanitize(rules, s + t, v, depth)
    decreases v
  {
    match v
    case Text(text) => RedactTwice(rules, s, t, text);
    case Dict(fields) => FieldsCompose(rules, s, t, fields, depth);
    case List(items) => ItemsCompose(rules, s, t, items, depth);
    case _ =>
  }

  lemma {:induction false} FieldComposes(rules: Rules, s: seq<string>, t: seq<string>, f: Field, depth: nat)
    ensures var first := SanitizeField(rules, s, f, depth);
            (if first.None? then None else SanitizeField(rules, t, first.value, depth))
            == SanitizeField(rules, s + t, f, depth)
    decreases f
  {
    if f.key.Name? {
      RedactTwice(rules, s, t, f.key.text);
    }
    SanitizeComposes(rules, s, t, f.value, depth + 1);
  }

  lemma {:induction false} FieldsCompose(rules: Rules, s: seq<string>, t: seq<string>, fields: seq<Field>, depth: nat)
    ensures var first := SanitizeFields(rules, s, fields, depth);
            (if first.None? then None else SanitizeFields(rules, t, first.value, depth))
            == SanitizeFields(rules, s + t, fields, depth)
    decreases fields
  {
    if fields != [] {
      FieldComposes(rules, s, t, fields[0], depth);
      FieldsCompose(rules, s, t, fields[1..], depth);
      var first := SanitizeFields(rules, s, fields, depth);
      if first.Some? {
        assert first.value[1..] == SanitizeFields(rules, s, fields[1..], depth).value;
      }
    }
  }

  lemma {:induction false} ItemsCompose(rules: Rules, s: seq<string>, t: seq<string>, items: seq<Value>, depth: nat)
    ensures var first := SanitizeItems(rules, s, items, depth);
            (if first.None? then None else SanitizeItems(rules, t, first.value, depth))
            == SanitizeItems(rules, s + t, items, depth)
    decreases items
  {
    if items != [] {
      SanitizeComposes(rules, s, t, items[0], depth + 1);
      ItemsCompose(rules, s, t, items[1..], depth);
      var first := SanitizeItems(rules, s, items, depth);
      if first.Some? {
        assert first.value[1..] == SanitizeItems(rules, s, items[1..], depth).value;
      }
    }
  }

  // ------------------------------------------------------------------ what is let through

  // Nothing visible is refused for any other reason than nesting.
  ghost predicate Admissible(rules: Rules, secrets: seq<string>, v: Value)
    decreases v
  {
    match v
    case NonFinite => false
    case Unsupported => false
    case Dict(fields) =>
      forall f :: f in fields ==>
        SafeKey(rules, secrets, f.key) && (rules.hides(f.key.text) || Admissible(rules, secrets, f.value))
    case List(items) => forall x :: x in items ==> Admissible(rules, secrets, x)
    case _ => true
  }

  ghost function Max(a: nat, b: nat): nat {
    if a < b then b else a
  }

  // How deep the visible part goes; a key counts one level below its dictionary, and so does
  // the value unless the key hides it.
  ghost function Height(rules: Rules, v: Value): nat
    decreases v
  {
    match v
    case Dict(fields) => FieldsHeight(rules, fields)
    case List(items) => ItemsHeight(rules, items)
    case _ => 0
  }

  ghost function FieldsHeight(rules: Rules, fields: seq<Field>): nat
    decreases fields
  {
    if fields == [] then 0
    else
      Max(1 + VisibleHeight(rules, fields[0]), FieldsHeight(rules, fields[1..]))
  }

  ghost function VisibleHeight(rules: Rules, f: Field): nat
    decreases f
  {
    if f.key.Name? && rules.hides(f.key.text) then 0 else Height(rules, f.value)
  }

  ghost function ItemsHeight(rules: Rules, items: seq<Value>): nat
    decreases items
  {
    if items == [] then 0 else Max(1 + Height(rules, items[0]), ItemsHeight(rules, items[1..]))
  }

  lemma {:induction false} SucceedsExactly(rules: Rules, secrets: seq<string>, v: Value, depth: nat)
    ensures Sanitize(rules, secrets, v, depth).Some? <==>
            Admissible(rules, secrets, v) && depth + Height(rules, v) <= 20
    decreases v
  {
    if depth <= MAX_DEPTH {
      match v
      case Dict(fields) => FieldsSucceedExactly(rules, secrets, fields, depth);
      case List(items) => ItemsSucceedExactly(rules, secrets, items, depth);
      case _ =>
    }
  }

  lemma {:induction false} FieldSucceedsExactly(rules: Rules, secrets: seq<string>, f: Field, depth: nat)
    ensures SanitizeField(rules, secrets, f, depth).Some? <==>
            && SafeKey(rules, secrets, f.key) && (rules.hides(f.key.text) || Admissible(rules, secrets, f.value))
            && depth + 1 + VisibleHeight(rules, f) <= MAX_DEPTH
    decreases f
  {
    SucceedsExactly(rules, secrets, f.value, depth + 1);
  }

  lemma {:induction false} FieldsSucceedExactly(rules: Rules, secrets: seq<string>, fields: seq<Field>, depth: nat)
    requires depth <= MAX_DEPTH
    ensures SanitizeFields(rules, secrets, fields, depth).Some? <==>
            Admissible(rules, secrets, Dict(fields)) && depth + FieldsHeight(rules, fields) <= MAX_DEPTH
    decreases fields
  {
    if fields != [] {
      FieldSucceedsExactly(rules, secrets, fields[0], depth);
      FieldsSucceedExactly(rules, secrets, fields[1..], depth);
      assert forall f :: f in fields <==> f == fields[0] || f in fields[1..];
    }
  }

  lemma {:induction false} ItemsSucceedExactly(rules: Rules, secrets: seq<string>, items: seq<Value>, depth: nat)
    requires depth <= MAX_DEPTH
    ensures SanitizeItems(rules, secrets, items, depth).Some? <==>
            Admissible(rules, secrets, List(items)) && depth + ItemsHeight(rules, items) <= MAX_DEPTH
    decreases items
  {
    if items != [] {
      SucceedsExactly(rules, secrets, items[0], depth + 1);
      ItemsSucceedExactly(rules, secrets, items[1..], depth);
      assert forall x :: x in items <==> x == items[0] || x in items[1..];
    }
  }

  // ------------------------------------------------------------------------ clean output

  ghost predicate CleanText(rules: Rules, secrets: seq<string>, text: string) {
    text == REDACTED || !IsSensitive(rules, secrets, text)
  }

  // Every text is the redaction mark or harmless, and what a hiding key holds is the mark.
  ghost predicate IsClean(rules: Rules, secrets: seq<string>, v: Value)
    decreases v
  {
    match v
    case Text(text) => CleanText(rules, secrets, text)
    case Dict(fields) =>
      forall f :: f in fields ==> CleanField(rules, secrets, f)
    case List(items) => forall x :: x in items ==> IsClean(rules, secrets, x)
    case NonFinite => false
    case Unsupported => false
    case _ => true
  }

  // What comes out is clean.
  lemma {:induction false} OutputIsClean(rules: Rules, secrets: seq<string>, v: Value, depth: nat)
    requires Sanitize(rules, secrets, v, depth).Some?
    ensures IsClean(rules, secrets, Sanitize(rules, secrets, v, depth).value)
    decreases v
  {
    match v
    case Dict(fields) => FieldsAreClean(rules, secrets, fields, depth);
    case List(items) => ItemsAreClean(rules, secrets, items, depth);
    case _ =>
  }

  ghost predicate CleanField(rules: Rules, secrets: seq<string>, f: Field)
    decreases f
  {
    && f.key.Name? && CleanText(rules, secrets, f.key.text)
    && (if rules.hides(f.key.text) then f.value == Text(REDACTED) else IsClean(rules, secrets, f.value))
  }

  lemma {:induction false} FieldIsClean(rules: Rules, secrets: seq<string>, f: Field, depth: nat)
    requires SanitizeField(rules, secrets, f, depth).Some?
    ensures CleanField(rules, secrets, SanitizeField(rules, secrets, f, depth).value)
    decreases f
  {
    if !rules.hides(f.key.text) {
      OutputIsClean(rules, secrets, f.value, depth + 1);
    }
  }

  lemma {:induction false} FieldsAreClean(rules: Rules, secrets: seq<string>, fields: seq<Field>, depth: nat)
    requires SanitizeFields(rules, secrets, fields, depth).Some?
    ensures IsClean(rules, secrets, Dict(SanitizeFields(rules, secrets, fields, depth).value))
    decreases fields
  {
    if fields != [] {
      FieldsAreClean(rules, secrets, fields[1..], depth);
      FieldIsClean(rules, secrets, fields[0], depth);
    }
  }

  lemma {:induction false} ItemsAreClean(rules: Rules, secrets: seq<string>, items: seq<Value>, depth: nat)
    requires SanitizeItems(rules, secrets, items, depth).Some?
    ensures IsClean(rules, secrets, List(SanitizeItems(rules, secrets, items, depth).value))
    decreases items
  {
    if items != [] {
      ItemsAreClean(rules, secrets, items[1..], depth);
      OutputIsClean(rules, secrets, items[0], depth + 1);
    }
  }

  // A value passes unchanged exactly when it is clean and not nested too deeply.
  lemma {:induction false} UnchangedExactly(rules: Rules, secrets: seq<string>, v: Value, depth: nat)
    ensures Sanitize(rules, secrets, v, depth) == Some(v) <==>
            IsClean(rules, secrets, v) && depth + Height(rules, v) <= MAX_DEPTH
    decreases v
  {
    if Sanitize(rules, secrets, v, depth) == Some(v) {
      OutputIsClean(rules, secrets, v, depth);
      SucceedsExactly(rules, secrets, v, depth);
    } else if IsClean(rules, secrets, v) && depth + Height(rules, v) <= MAX_DEPTH {
      CleanIsUnchanged(rules, secrets, v, depth);
    }
  }

  lemma {:induction false} CleanIsUnchanged(rules: Rules, secrets: seq<string>, v: Value, depth: nat)
    requires IsClean(rules, secrets, v) && depth + Height(rules, v) <= MAX_DEPTH
    ensures Sanitize(rules, secrets, v, depth) == Some(v)
    decreases v
  {
    match v
    case Dict(fields) => CleanFieldsUnchanged(rules, secrets, fields, depth);
    case List(items) => CleanItemsUnchanged(rules, secrets, items, depth);
    case _ =>
  }

  lemma {:induction false} CleanFieldsUnchanged(rules: Rules, secrets: seq<string>, fields: seq<Field>, depth: nat)
    requires IsClean(rules, secrets, Dict(fields)) && depth + FieldsHeight(rules, fields) <= MAX_DEPTH
    ensures SanitizeFields(rules, secrets, fields, depth) == Some(fields)
    decreases fields
  {
    if fields != [] {
      assert fields[0] in fields && fields == [fields[0]] + fields[1..];
      CleanFieldsUnchanged(rules, secrets, fields[1..], depth);
      if !rules.hides(fields[0].key.text) {
        CleanIsUnchanged(rules, secrets, fields[0].value, depth + 1);
      }
    }
  }

  lemma {:induction false} CleanItemsUnchanged(rules: Rules, secrets: seq<string>, items: seq<Value>, depth: nat)
    requires IsClean(rules, secrets, List(items)) && depth + ItemsHeight(rules, items) <= MAX_DEPTH
    ensures SanitizeItems(rules, secrets, items, depth) == Some(items)
    decreases items
  {
    if items != [] {
      assert items[0] in items && items == [items[0]] + items[1..];
      CleanItemsUnchanged(rules, secrets, items[1..], depth);
      CleanIsUnchanged(rules, secrets, items[0], depth + 1);
    }
  }

  // A second pass with the same secrets changes nothing.
  lemma {:induction false} SanitizeIsIdempotent(rules: Rules, secrets: seq<string>, v: Value, depth: nat)
    requires Sanitize(rules, secrets, v, depth).Some?
    ensures var once := Sanitize(rules, secrets, v, depth).value;
            Sanitize(rules, secrets, once, depth) == Some(once)
  {
    var once := Sanitize(rules, secrets, v, depth).value;
    SanitizeComposes(rules, secrets, secrets, v, depth);
    SecretsAsSet(rules, secrets + secrets, secrets, v, depth);
  }

  // Only the set of secrets matters.
  lemma {:induction false} SecretsAsSet(rules: Rules, s: seq<string>, t: seq<string>, v: Value, depth: nat)
    requires forall x :: x in s <==> x in t
    ensures Sanitize(rules, s, v, depth) == Sanitize(rules, t, v, depth)
    decreases v
  {
    match v
    case Dict(fields) => FieldsSecretsAsSet(rules, s, t, fields, depth);
    case List(items) => ItemsSecretsAsSet(rules, s, t, items, depth);
    case _ =>
  }

  lemma {:induction false} FieldSecretsAsSet(rules: Rules, s: seq<string>, t: seq<string>, f: Field, depth: nat)
    requires forall x :: x in s <==> x in t
    ensures SanitizeField(rules, s, f, depth) == SanitizeField(rules, t, f, depth)
    decreases f
  {
    SecretsAsSet(rules, s, t, f.value, depth + 1);
  }

  lemma {:induction false} FieldsSecretsAsSet(rules: Rules, s: seq<string>, t: seq<string>, fields: seq<Field>,
                                              depth: nat)
    requires forall x :: x in s <==> x in t
    ensures SanitizeFields(rules, s, fields, depth) == SanitizeFields(rules, t, fields, depth)
    decreases fields
  {
    if fields != [] {
      FieldSecretsAsSet(rules, s, t, fields[0], depth);
      FieldsSecretsAsSet(rules, s, t, fields[1..], depth);
    }
  }

  lemma {:induction false} ItemsSecretsAsSet(rules: Rules, s: seq<string>, t: seq<string>, items: seq<Value>,
                                             depth: nat)
    requires forall x :: x in s <==> x in t
    ensures SanitizeItems(rules, s, items, depth) == SanitizeItems(rules, t, items, depth)
    decreases items
  {
    if items != [] {
      SecretsAsSet(rules, s, t, items[0], depth + 1);
      ItemsSecretsAsSet(rules, s, t, items[1..], depth);
    }
  }

  // -------------------------------------------------------------------- adding secrets

  // `w` is `v` with some texts replaced by the mark.
  ghost predicate RedactsMore(v: Value, w: Value)
    decreases v
  {
    match v
    case Text(text) => w.Text? && (w.text == text || w.text == REDACTED)
    case Dict(fields) =>
      w.Dict? && |w.fields| == |fields|
      && forall i :: 0 <= i < |fields| ==> FieldRedactsMore(fields[i], w.fields[i])
    case List(items) =>
      w.List? && |w.items| == |items| && forall i :: 0 <= i < |items| ==> RedactsMore(items[i], w.items[i])
    case _ => v == w
  }

  ghost predicate FieldRedactsMore(f: Field, g: Field)
    decreases f
  {
    f.key == g.key && RedactsMore(f.value, g.value)
  }

  // Secrets known later only redact more.
  lemma {:induction false} MoreSecretsRedactMore(rules: Rules, s: seq<string>, t: seq<string>, v: Value, depth: nat)
    requires Sanitize(rules, s + t, v, depth).Some?
    ensures Sanitize(rules, s, v, depth).Some?
    ensures RedactsMore(Sanitize(rules, s, v, depth).value, Sanitize(rules, s + t, v, depth).value)
  {
    SanitizeComposes(rules, s, t, v, depth);
    OutputIsClean(rules, s, v, depth);
    PassRedacts(rules, s, t, Sanitize(rules, s, v, depth).value, depth);
  }

  lemma {:induction false} PassRedacts(rules: Rules, s: seq<string>, t: seq<string>, v: Value, depth: nat)
    requires IsClean(rules, s, v) && Sanitize(rules, t, v, depth).Some?
    ensures RedactsMore(v, Sanitize(rules, t, v, depth).value)
    decreases v
  {
    match v
    case Dict(fields) => FieldsPassRedacts(rules, s, t, fields, depth);
    case List(items) => ItemsPassRedacts(rules, s, t, items, depth);
    case _ =>
  }

  lemma {:induction false} FieldPassRedacts(rules: Rules, s: seq<string>, t: seq<string>, f: Field, depth: nat)
    requires CleanField(rules, s, f) && SanitizeField(rules, t, f, depth).Some?
    ensures FieldRedactsMore(f, SanitizeField(rules, t, f, depth).value)
    decreases f
  {
    if !rules.hides(f.key.text) {
      PassRedacts(rules, s, t, f.value, depth + 1);
    }
  }

  lemma {:induction false} FieldsPassRedacts(rules: Rules, s: seq<string>, t: seq<string>, fields: seq<Field>,
                                             depth: nat)
    requires IsClean(rules, s, Dict(fields)) && SanitizeFields(rules, t, fields, depth).Some?
    ensures RedactsMore(Dict(fields), Dict(SanitizeFields(rules, t, fields, depth).value))
    decreases fields
  {
    if fields != [] {
      assert fields[0] in fields;
      FieldPassRedacts(rules, s, t, fields[0], depth);
      FieldsPassRedacts(rules, s, t, fields[1..], depth);
      var rest := SanitizeFields(rules, t, fields[1..], depth).value;
      forall i | 0 < i < |fields|
        ensures FieldRedactsMore(fields[i], SanitizeFields(rules, t, fields, depth).value[i])
      {
        assert fields[i] == fields[1..][i - 1] && FieldRedactsMore(fields[1..][i - 1], rest[i - 1]);
      }
    }
  }

  lemma {:induction false} ItemsPassRedacts(rules: Rules, s: seq<string>, t: seq<string>, items: seq<Value>, depth: nat)
    requires IsClean(rules, s, List(items)) && SanitizeItems(rules, t, items, depth).Some?
    ensures RedactsMore(List(items), List(SanitizeItems(rules, t, items, depth).value))
    decreases items
  {
    if items != [] {
      assert items[0] in items;
      PassRedacts(rules, s, t, items[0], depth + 1);
      ItemsPassRedacts(rules, s, t, items[1..], depth);
      var rest := SanitizeItems(rules, t, items[1..], depth).value;
      forall i | 0 < i < |items| ensures RedactsMore(items[i], SanitizeItems(rules, t, items, depth).value[i]) {
        assert items[i] == items[1..][i - 1] && RedactsMore(items[1..][i - 1], rest[i - 1]);
      }
    }
  }

  // ------------------------------------------------------------------ hidden content

  ghost function Erase(rules: Rules, v: Value): Value
    decreases v
  {
    match v
    case Dict(fields) => Dict(EraseFields(rules, fields))
    case List(items) => List(EraseItems(rules, items))
    case _ => v
  }

  ghost function EraseField(rules: Rules, f: Field): Field
    decreases f
  {
    Field(f.key, if f.key.Name? && rules.hides(f.key.text) then Null else Erase(rules, f.value))
  }

  ghost function EraseFields(rules: Rules, fields: seq<Field>): seq<Field>
    decreases fields
  {
    if fields == [] then [] else [EraseField(rules, fields[0])] + EraseFields(rules, fields[1..])
  }

  ghost function EraseItems(rules: Rules, items: seq<Value>): seq<Value>
    decreases items
  {
    if items == [] then [] else [Erase(rules, items[0])] + EraseItems(rules, items[1..])
  }

  // Whatever stands under a hiding key, the outcome is the same.
  lemma {:induction false} HiddenContentIsIrrelevant(rules: Rules, secrets: seq<string>, v: Value, w: Value, depth: nat)
    requires Erase(rules, v) == Erase(rules, w)
    ensures Sanitize(rules, secrets, v, depth) == Sanitize(rules, secrets, w, depth)
  {
    SanitizeErased(rules, secrets, v, depth);
    SanitizeErased(rules, secrets, w, depth);
  }

  lemma {:induction false} SanitizeErased(rules: Rules, secrets: seq<string>, v: Value, depth: nat)
    ensures Sanitize(rules, secrets, Erase(rules, v), depth) == Sanitize(rules, secrets, v, depth)
    decreases v
  {
    match v
    case Dict(fields) => SanitizeErasedFields(rules, secrets, fields, depth);
    case List(items) => SanitizeErasedItems(rules, secrets, items, depth);
    case _ =>
  }

  lemma {:induction false} SanitizeErasedField(rules: Rules, secrets: seq<string>, f: Field, depth: nat)
    ensures SanitizeField(rules, secrets, EraseField(rules, f), depth) == SanitizeField(rules, secrets, f, depth)
    decreases f
  {
    SanitizeErased(rules, secrets, f.value, depth + 1);
  }

  lemma {:induction false} SanitizeErasedFields(rules: Rules, secrets: seq<string>, fields: seq<Field>, depth: nat)
    ensures SanitizeFields(rules, secrets, EraseFields(rules, fields), depth) ==
            SanitizeFields(rules, secrets, fields, depth)
    decreases fields
  {
    if fields != [] {
      SanitizeErasedField(rules, secrets, fields[0], depth);
      SanitizeErasedFields(rules, secrets, fields[1..], depth);
      assert EraseFields(rules, fields)[1..] == EraseFields(rules, fields[1..]);
    }
  }

  lemma {:induction false} SanitizeErasedItems(rules: Rules, secrets: seq<string>, items: seq<Value>, depth: nat)
    ensures SanitizeItems(rules, secrets, EraseItems(rules, items), depth) ==
            SanitizeItems(rules, secrets, items, depth)
    decreases items
  {
    if items != [] {
      SanitizeErased(rules, secrets, items[0], depth + 1);
      SanitizeErasedItems(rules, secrets, items[1..], depth);
      assert EraseItems(rules, items)[1..] == EraseItems(rules, items[1..]);
    }
  }
}
