/** Request validation (stage2/validation/validation.go): the validator's
    per-field report and ValidateUser, which turns each reported failure into
    a `{field, message}` entry. */
module Validation {
  import opened Wrappers

  /** One entry of the `errors` list of a 422 response. */
  datatype ValidationError = ValidationError(field: string, message: string)

  /** The `validate:"..."` rules that the request bodies use. Whether a string
      is an email is the validator library's own rule and is a parameter here. */
  datatype Rule = Required | Email

  /** One struct field as the validator sees it: its Go name, its value and
      its rules in tag order. */
  datatype FieldSpec = FieldSpec(name: string, value: string, rules: seq<Rule>)

  /** One failure the validator reports: the field's name and the tag of the
      rule it broke. */
  datatype FieldFailure = FieldFailure(field: string, tag: string)

  function Tag(r: Rule): string
  {
    match r
    case Required => "required"
    case Email => "email"
  }

  predicate Satisfies(r: Rule, value: string, isEmail: string -> bool)
  {
    match r
    case Required => value != ""
    case Email => isEmail(value)
  }

  /** The first rule of a field that its value breaks: the validator stops
      checking a field at its first failing tag. */
  function FirstBroken(rules: seq<Rule>, value: string, isEmail: string -> bool): (b: Option<Rule>)
    ensures b.None? <==> forall k | 0 <= k < |rules| :: Satisfies(rules[k], value, isEmail)
    ensures b.Some? ==> exists k | 0 <= k < |rules| ::
      rules[k] == b.value && !Satisfies(rules[k], value, isEmail) &&
      forall j | 0 <= j < k :: Satisfies(rules[j], value, isEmail)
  {
    if rules == [] then None
    else if !Satisfies(rules[0], value, isEmail) then Some(rules[0])
    else
      var b := FirstBroken(rules[1..], value, isEmail);
      assert forall k | 1 <= k < |rules| :: rules[k] == rules[1..][k - 1];
      b
  }

  /** A field passes when none of its rules is broken. */
  predicate Passes(f: FieldSpec, isEmail: string -> bool)
  {
    FirstBroken(f.rules, f.value, isEmail).None?
  }

  /** What `validate.Struct` reports for a struct: one failure per failing
      field, in field order, tagged with the field's first broken rule. */
  function Failures(fields: seq<FieldSpec>, isEmail: string -> bool): (fs: seq<FieldFailure>)
    ensures |fs| <= |fields|
    ensures fs == [] <==> forall i | 0 <= i < |fields| :: Passes(fields[i], isEmail)
  {
    if fields == [] then []
    else
      var rest := Failures(fields[1..], isEmail);
      assert forall i | 1 <= i < |fields| :: fields[i] == fields[1..][i - 1];
      match FirstBroken(fields[0].rules, fields[0].value, isEmail)
      case None => rest
      case Some(rule) => [FieldFailure(fields[0].name, Tag(rule))] + rest
  }

  /** `ff` is the failure the validator reports for field `f`: the field
      fails, and `ff` carries its name and the tag of its first broken rule. */
  predicate Reports(ff: FieldFailure, f: FieldSpec, isEmail: string -> bool)
  {
    match FirstBroken(f.rules, f.value, isEmail)
    case None => false
    case Some(rule) => ff == FieldFailure(f.name, Tag(rule))
  }

  /** `pos` maps each element of `ys` to the element of `xs` it stands for,
      by `rel`: the positions strictly increase, and every element of `xs`
      that is `bad` has one. */
  ghost predicate Indexes<X, Y>(ys: seq<Y>, xs: seq<X>, rel: (Y, X) -> bool, bad: X -> bool, pos: seq<nat>)
  {
    && |pos| == |ys|
    && (forall k | 0 <= k < |pos| :: pos[k] < |xs| && rel(ys[k], xs[pos[k]]))
    && (forall j, k | 0 <= j < k < |pos| :: pos[j] < pos[k])
    && (forall i | 0 <= i < |xs| && bad(xs[i]) :: i in pos)
  }

  /** A first element that is not bad and stands for nothing: shift the tail's positions. */
  lemma IndexesSkip<X, Y>(xs: seq<X>, ys: seq<Y>, rel: (Y, X) -> bool, bad: X -> bool, p: seq<nat>)
    returns (pos: seq<nat>)
    requires |xs| > 0 && !bad(xs[0])
    requires Indexes(ys, xs[1..], rel, bad, p)
    ensures Indexes(ys, xs, rel, bad, pos)
  {
    var tail := xs[1..];
    pos := seq(|p|, k requires 0 <= k < |p| => p[k] + 1);
    forall k | 0 <= k < |pos| ensures pos[k] < |xs| && rel(ys[k], xs[pos[k]]) {
      assert xs[pos[k]] == tail[p[k]];
    }
    forall i | 0 <= i < |xs| && bad(xs[i]) ensures i in pos {
      assert tail[i - 1] == xs[i];
      var k :| 0 <= k < |p| && p[k] == i - 1;
      assert pos[k] == i;
    }
  }

  /** A first element that `y` stands for: `y` goes first, at position 0. */
  lemma IndexesKeep<X, Y>(xs: seq<X>, y: Y, ys: seq<Y>, rel: (Y, X) -> bool, bad: X -> bool, p: seq<nat>)
    returns (pos: seq<nat>)
    requires |xs| > 0 && rel(y, xs[0])
    requires Indexes(ys, xs[1..], rel, bad, p)
    ensures Indexes([y] + ys, xs, rel, bad, pos)
  {
    var tail := xs[1..];
    var all := [y] + ys;
    pos := [0] + seq(|p|, k requires 0 <= k < |p| => p[k] + 1);
    forall k | 0 <= k < |pos| ensures pos[k] < |xs| && rel(all[k], xs[pos[k]]) {
      if k > 0 {
        assert all[k] == ys[k - 1] && pos[k] == p[k - 1] + 1;
        assert xs[pos[k]] == tail[p[k - 1]];
      }
    }
    forall i | 0 <= i < |xs| && bad(xs[i]) ensures i in pos {
      if i == 0 {
        assert pos[0] == 0;
      } else {
        assert tail[i - 1] == xs[i];
        var k :| 0 <= k < |p| && p[k] == i - 1;
        assert pos[k + 1] == i;
      }
    }
  }

  /** `pos[k]` is the field the k-th failure of `fs` reports: the positions
      strictly increase (field order, each field at most once) and every
      failing field has one. */
  ghost predicate Positions(fs: seq<FieldFailure>, fields: seq<FieldSpec>, isEmail: string -> bool, pos: seq<nat>)
  {
    Indexes(fs, fields, (ff, f) => Reports(ff, f, isEmail), f => !Passes(f, isEmail), pos)
  }

  /** The failures come in field order, one per failing field, each reporting
      its field's first broken rule. */
  lemma {:induction false} FailurePositions(fields: seq<FieldSpec>, isEmail: string -> bool) returns (pos: seq<nat>)
    ensures Positions(Failures(fields, isEmail), fields, isEmail, pos)
  {
    if fields == [] {
      return [];
    }
    var rest := Failures(fields[1..], isEmail);
    var p := FailurePositions(fields[1..], isEmail);
    match FirstBroken(fields[0].rules, fields[0].value, isEmail)
    case None =>
      pos := IndexesSkip(fields, rest, (ff, f) => Reports(ff, f, isEmail), f => !Passes(f, isEmail), p);
    case Some(rule) =>
      pos := IndexesKeep(fields, FieldFailure(fields[0].name, Tag(rule)), rest, (ff, f) => Reports(ff, f, isEmail), f => !Passes(f, isEmail), p);
  }

  /** Validation is exhaustive: every failing field is reported, not only the
      first one. */
  lemma {:induction false} FailuresExhaustive(fields: seq<FieldSpec>, isEmail: string -> bool, i: nat)
    requires i < |fields| && !Passes(fields[i], isEmail)
    ensures exists k | 0 <= k < |Failures(fields, isEmail)| :: Reports(Failures(fields, isEmail)[k], fields[i], isEmail)
  {
    var pos := FailurePositions(fields, isEmail);
    assert i in pos;
    var k :| 0 <= k < |pos| && pos[k] == i;
    assert Reports(Failures(fields, isEmail)[k], fields[i], isEmail);
  }

  /** Every reported failure names a field that fails, with the tag of the
      first rule that field breaks. */
  lemma {:induction false} FailuresSound(fields: seq<FieldSpec>, isEmail: string -> bool, k: nat)
    requires k < |Failures(fields, isEmail)|
    ensures exists i | 0 <= i < |fields| :: Reports(Failures(fields, isEmail)[k], fields[i], isEmail)
  {
    var pos := FailurePositions(fields, isEmail);
    assert Reports(Failures(fields, isEmail)[k], fields[pos[k]], isEmail);
  }

  /** When exactly one field fails, and by its `required` rule, the validator
      reports exactly that field. */
  lemma {:induction false} SingleRequiredFailure(fields: seq<FieldSpec>, isEmail: string -> bool, m: nat)
    requires m < |fields|
    requires forall i | 0 <= i < |fields| && i != m :: Passes(fields[i], isEmail)
    requires FirstBroken(fields[m].rules, fields[m].value, isEmail) == Some(Required)
    ensures Failures(fields, isEmail) == [FieldFailure(fields[m].name, "required")]
  {
    var tail := fields[1..];
    if m == 0 {
      assert forall i | 0 <= i < |tail| :: tail[i] == fields[i + 1];
      assert Failures(tail, isEmail) == [];
    } else {
      assert forall i | 0 <= i < |tail| :: tail[i] == fields[i + 1];
      SingleRequiredFailure(tail, isEmail, m - 1);
    }
  }

  /** `fmt.Sprintf` with one string argument, for the formats used here,
      whose one verb `%s` leads the format: the verb is replaced by the
      argument. */
  function Sprintf(format: string, arg: string): string
  {
    if |format| >= 2 && format[..2] == "%s" then arg + format[2..] else format
  }

  lemma SprintfLeading(rest: string, arg: string)
    requires '%' !in rest
    ensures Sprintf("%s" + rest, arg) == arg + rest
  {
  }

  /** The four formats of ValidateUser have no verb after the leading one. */
  lemma MessageTailsPlain()
    ensures '%' !in " is required" && '%' !in " must be a valid email"
    ensures '%' !in " must be unique" && '%' !in " is not valid"
  {
  }

  /** The message of one failure, chosen by the failed tag. */
  function MessageFor(field: string, tag: string): (m: string)
    ensures tag == "required" ==> m == field + " is required"
    ensures tag == "email" ==> m == field + " must be a valid email"
    ensures tag == "unique" ==> m == field + " must be unique"
    ensures tag !in {"required", "email", "unique"} ==> m == field + " is not valid"
  {
    MessageTailsPlain();
    if tag == "required" then
      SprintfLeading(" is required", field);
      Sprintf("%s" + " is required", field)
    else if tag == "email" then
      SprintfLeading(" must be a valid email", field);
      Sprintf("%s" + " must be a valid email", field)
    else if tag == "unique" then
      SprintfLeading(" must be unique", field);
      Sprintf("%s" + " must be unique", field)
    else
      SprintfLeading(" is not valid", field);
      Sprintf("%s" + " is not valid", field)
  }

  function ErrorFor(f: FieldFailure): ValidationError
  {
    ValidationError(f.field, MessageFor(f.field, f.tag))
  }

  /** The list ValidateUser returns, as a value: one entry per reported
      failure, in the validator's order. */
  function Report(data: seq<FieldSpec>, isEmail: string -> bool): seq<ValidationError>
  {
    var fs := Failures(data, isEmail);
    seq(|fs|, k requires 0 <= k < |fs| => ErrorFor(fs[k]))
  }

  /** ValidateUser: run the validator on `data` and turn each failure into a
      ValidationError whose field is the failing field and whose message is
      chosen by the failed tag. */
  method ValidateUser(data: seq<FieldSpec>, isEmail: string -> bool) returns (errors: seq<ValidationError>)
    ensures errors == Report(data, isEmail)
    ensures errors == [] <==> forall i | 0 <= i < |data| :: Passes(data[i], isEmail)
    ensures |errors| == |Failures(data, isEmail)|
    ensures forall k | 0 <= k < |errors| ::
      var f := Failures(data, isEmail)[k];
      errors[k].field == f.field && errors[k].message == MessageFor(f.field, f.tag)
  {
    errors := [];
    var failures := Failures(data, isEmail);
    var i := 0;
    while i < |failures|
      invariant 0 <= i <= |failures|
      invariant |errors| == i
      invariant forall k | 0 <= k < i :: errors[k] == ErrorFor(failures[k])
    {
      var err := failures[i];
      var element := ValidationError(err.field, MessageFor(err.field, err.tag));
      errors := errors + [element];
      i := i + 1;
    }
    assert errors == Report(data, isEmail);
  }
}
