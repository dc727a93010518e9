/** The loops of src/transform.rs, which rewrite a header map and a body in place. */
module Pipeline {
  import opened Common
  import opened Text
  import opened Headers
  import opened Transform

  /** The collected response body, `&mut Vec<u8>`. */
  class BodyBuffer {
    var bytes: seq<byte>

    constructor (bytes: seq<byte>)
      ensures this.bytes == bytes
    {
      this.bytes := bytes;
    }
  }

  datatype PrebufferOutcome = PrebufferOutcome(disposition: Disposition, headersChanged: bool)

  datatype ApplyOutcome = ApplyOutcome(headersChanged: bool, bodyChanged: bool)

  /** One header value: its new field and whether its text changed. */
  method RewriteEntry(rule: Rule, f: Field) returns (r: Result<Field, TransformError>, changed: bool)
    ensures r.Err? <==> FieldError(rule, f).Some?
    ensures r.Err? ==> FieldError(rule, f) == Some(r.error)
    ensures r.Ok? ==> r.value == RewriteField(rule, f) && changed == FieldChanges(rule, f)
  {
    if !Selects(rule, f.name) {
      return Ok(f), false;
    }
    var current := ToStr(f.value);
    if current.None? {
      return Err(NotText(f.name)), false;
    }
    var updated := ReplaceText(rule, current.value);
    var rewritten := FromStr(updated);
    if rewritten.None? {
      return Err(InvalidValue(f.name)), false;
    }
    return Ok(Field(f.name, rewritten.value)), updated != current.value;
  }

  /** What is known of a whole map once its first fields have been rewritten to `entries`. */
  ghost predicate RewrittenSoFar(rule: Rule, whole: Fields, entries: Fields, changed: bool, rest: Fields) {
    && FirstError(rule, whole) == FirstError(rule, rest)
    && (FirstError(rule, whole).None? ==> Rewrite(rule, whole) == entries + Rewrite(rule, rest))
    && (AnyFieldChanges(rule, whole) <==> changed || AnyFieldChanges(rule, rest))
  }

  lemma AnyFieldChangesHead(rule: Rule, h: Fields)
    requires h != []
    ensures AnyFieldChanges(rule, h) <==> FieldChanges(rule, h[0]) || AnyFieldChanges(rule, h[1..])
  {
    assert h == [h[0]] + h[1..];
  }

  lemma RewriteHead(rule: Rule, h: Fields)
    requires h != [] && FirstError(rule, h).None?
    ensures Rewrite(rule, h) == [RewriteField(rule, h[0])] + Rewrite(rule, h[1..])
  {
  }

  lemma OneMoreRewritten(rule: Rule, whole: Fields, entries: Fields, changed: bool, rest: Fields)
    requires rest != [] && RewrittenSoFar(rule, whole, entries, changed, rest) && FieldError(rule, rest[0]).None?
    ensures RewrittenSoFar(rule, whole, entries + [RewriteField(rule, rest[0])],
                           changed || FieldChanges(rule, rest[0]), rest[1..])
  {
    if FirstError(rule, rest).None? {
      RewriteHead(rule, rest);
      var first, others := [RewriteField(rule, rest[0])], Rewrite(rule, rest[1..]);
      assert entries + (first + others) == entries + first + others;
    }
    AnyFieldChangesHead(rule, rest);
  }

  /** Every header value rewritten, or the first failure. */
  method RewriteEntries(rule: Rule, fields: Fields) returns (r: Result<Fields, TransformError>, changed: bool)
    ensures r.Err? ==> FirstError(rule, fields) == Some(r.error)
    ensures r.Ok? ==> FirstError(rule, fields).None? && r.value == Rewrite(rule, fields)
    ensures r.Ok? ==> changed == AnyFieldChanges(rule, fields)
  {
    var entries: Fields := [];
    changed := false;
    for i := 0 to |fields|
      invariant RewrittenSoFar(rule, fields, entries, changed, fields[i..])
    {
      var entry, differs := RewriteEntry(rule, fields[i]);
      if entry.Err? {
        return Err(entry.error), changed;
      }
      OneMoreRewritten(rule, fields, entries, changed, fields[i..]);
      changed := changed || differs;
      entries := entries + [entry.value];
    }
    return Ok(entries), changed;
  }

  /** The map is cleared, and the entries are appended one by one. */
  method Rebuild(headers: HeaderMap, entries: Fields)
    modifies headers
    ensures headers.fields == entries
  {
    headers.Clear();
    for i := 0 to |entries|
      invariant headers.fields == entries[..i]
    {
      headers.Append(entries[i].name, entries[i].value);
    }
  }

  /** The map is rebuilt only if some value changed. */
  method ApplySelectedHeaders(rule: Rule, headers: HeaderMap) returns (r: Result<bool, TransformError>)
    modifies headers
    ensures HeaderRun(headers.fields, r) == ApplyHeaders(rule, old(headers.fields))
  {
    var entries, changed := RewriteEntries(rule, headers.fields);
    if entries.Err? {
      return Err(entries.error);
    }
    if changed {
      Rebuild(headers, entries.value);
    }
    return Ok(changed);
  }

  method ApplyToBody(lib: Library, rule: Rule, body: BodyBuffer) returns (changed: bool)
    requires RequiresBody(rule)
    modifies body
    ensures body.bytes == ApplyBody(lib, rule, old(body.bytes)) && changed == BodyChanges(lib, rule, old(body.bytes))
  {
    var text := lib.decodeLossy(body.bytes);
    var updated := ReplaceText(rule, text);
    if updated == text {
      return false;
    }
    body.bytes := Encode(updated);
    return true;
  }

  /** The streaming prefix: stops at the first matching rule that needs the body. */
  method ApplyUntilBody(lib: Library, rules: seq<Rule>, url: string, headers: HeaderMap)
    returns (r: Result<PrebufferOutcome, TransformError>)
    modifies headers
    ensures var pre := UntilBody(lib, rules, 0, url, old(headers.fields));
      && headers.fields == pre.fields
      && r == (if pre.disposition.Rejected? then Err(pre.disposition.error)
               else Ok(PrebufferOutcome(pre.disposition, pre.headersChanged)))
  {
    ghost var pre := UntilBody(lib, rules, 0, url, headers.fields);
    var headersChanged := false;
    for index := 0 to |rules|
      invariant var rest := UntilBody(lib, rules, index, url, headers.fields);
        && pre.fields == rest.fields && pre.disposition == rest.disposition
        && pre.headersChanged == (headersChanged || rest.headersChanged)
    {
      var rule := rules[index];
      if Matches(lib, rule, url, headers.fields) {
        if RequiresBody(rule) {
          return Ok(PrebufferOutcome(BufferFrom(index), headersChanged));
        }
        var triggered := ApplySelectedHeaders(rule, headers);
        if triggered.Err? {
          return Err(triggered.error);
        }
        headersChanged := headersChanged || triggered.value;
        if triggered.value && rule.stop {
          return Ok(PrebufferOutcome(Stream, headersChanged));
        }
      }
    }
    return Ok(PrebufferOutcome(Stream, headersChanged));
  }

  function RulesFrom(rules: seq<Rule>, start: nat): seq<Rule> {
    if start <= |rules| then rules[start..] else []
  }

  /** The buffered phase, from rule `start` on. */
  method ApplyWithBody(lib: Library, rules: seq<Rule>, start: nat, url: string, headers: HeaderMap, body: BodyBuffer)
    returns (r: Result<ApplyOutcome, TransformError>)
    modifies headers, body
    ensures var run := Interpret(lib, RulesFrom(rules, start), url, old(headers.fields), old(body.bytes));
      && headers.fields == run.fields && body.bytes == run.body
      && r == (if run.progress.Failed? then Err(run.progress.error)
               else Ok(ApplyOutcome(run.headersChanged, run.bodyChanged)))
  {
    var selected := RulesFrom(rules, start);
    ghost var run := Interpret(lib, selected, url, headers.fields, body.bytes);
    var headersChanged, bodyChanged := false, false;
    for i := 0 to |selected|
      invariant run == Then(Run(headers.fields, body.bytes, headersChanged, bodyChanged, Continue),
                            Interpret(lib, selected[i..], url, headers.fields, body.bytes))
    {
      var rule := selected[i];
      assert selected[i..][0] == rule && selected[i..][1..] == selected[i + 1..];
      ghost var step := RunRule(lib, rule, url, headers.fields, body.bytes);
      if Matches(lib, rule, url, headers.fields) {
        var triggered := ApplySelectedHeaders(rule, headers);
        if triggered.Err? {
          return Err(triggered.error);
        }
        var changed := false;
        if RequiresBody(rule) {
          changed := ApplyToBody(lib, rule, body);
        }
        assert step.fields == headers.fields && step.body == body.bytes;
        headersChanged := headersChanged || triggered.value;
        bodyChanged := bodyChanged || changed;
        if (triggered.value || changed) && rule.stop {
          return Ok(ApplyOutcome(headersChanged, bodyChanged));
        }
      }
    }
    return Ok(ApplyOutcome(headersChanged, bodyChanged));
  }
}
