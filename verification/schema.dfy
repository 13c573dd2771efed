/**
 The order form's validation schema: per field, an ordered chain of yup string tests
 (`min`, `max`, `oneOf`, `required`), each with a fixed message. A single field is
 validated by reporting the message of the first failing test; the whole object is
 valid when every test of every field passes.
 */
module Schema {
  import opened JsString

  /** The messages the schema attaches to its tests. */
  datatype Message = FullNameTooShort | FullNameTooLong | SizeIncorrect | FullNameRequired | SizeRequired

  /** The text yup reports for each message. */
  function Text(m: Message): string {
    match m
    case FullNameTooShort => "full name must be at least 3 characters"
    case FullNameTooLong => "full name must be at most 20 characters"
    case SizeIncorrect => "size must be S or M or L"
    case FullNameRequired => "Full name is required"
    case SizeRequired => "Size is required"
  }

  /** No text is empty and no two messages share one, so a shown error text
      identifies its message and an empty text means no message. */
  lemma TextIsFaithful()
    ensures forall m :: Text(m) != ""
    ensures forall m1, m2 :: Text(m1) == Text(m2) ==> m1 == m2
  {
    assert Text(FullNameTooShort)[21] != Text(FullNameTooLong)[21];
  }

  /** The sizes `oneOf` accepts. */
  const Sizes: seq<string> := ["S", "M", "L"]

  datatype Field = FullName | Size

  function Other(f: Field): Field {
    match f
    case FullName => Size
    case Size => FullName
  }

  /** The values the form holds; the schema looks at `fullName` and `size` only,
      `toppings` is a key it does not declare and ignores. */
  datatype FormValues = FormValues(fullName: string, size: string, toppings: seq<string>)

  function ValueOf(v: FormValues, f: Field): string {
    match f
    case FullName => v.fullName
    case Size => v.size
  }

  /** `{ ...v, [f]: x }` */
  function WithValue(v: FormValues, f: Field, x: string): (r: FormValues)
    ensures ValueOf(r, f) == x
    ensures ValueOf(r, Other(f)) == ValueOf(v, Other(f))
    ensures r.toppings == v.toppings
  {
    match f
    case FullName => v.(fullName := x)
    case Size => v.(size := x)
  }

  datatype Rule = Required | MinLength(min: nat) | MaxLength(max: nat) | OneOf(allowed: seq<string>)

  datatype Check = Check(rule: Rule, message: Message)

  /** yup's string tests: `required` rejects the empty string, `min` and `max` bound
      the length in UTF-16 code units, `oneOf` asks for membership. */
  predicate Passes(rule: Rule, x: string) {
    match rule
    case Required => |x| > 0
    case MinLength(n) => Utf16Length(x) >= n
    case MaxLength(n) => Utf16Length(x) <= n
    case OneOf(allowed) => x in allowed
  }

  /** The test chain of each field, in the order the schema declares it. */
  function Rules(f: Field): seq<Check> {
    match f
    case FullName =>
      [Check(MinLength(3), FullNameTooShort), Check(MaxLength(20), FullNameTooLong), Check(Required, FullNameRequired)]
    case Size =>
      [Check(OneOf(Sizes), SizeIncorrect), Check(Required, SizeRequired)]
  }

  predicate AllPass(checks: seq<Check>, x: string) {
    forall i :: 0 <= i < |checks| ==> Passes(checks[i].rule, x)
  }

  /** `checks[i]` fails on `x` and every check before it passes. */
  predicate FirstFailureAt(checks: seq<Check>, x: string, i: nat) {
    i < |checks| && !Passes(checks[i].rule, x) && AllPass(checks[..i], x)
  }

  datatype Outcome = Pass | Fail(message: Message)

  /** Evaluates a chain in order; the first failure wins. */
  function FirstError(checks: seq<Check>, x: string): Outcome {
    if |checks| == 0 then Pass
    else if !Passes(checks[0].rule, x) then Fail(checks[0].message)
    else FirstError(checks[1..], x)
  }

  /** The chain passes exactly when every check does, and otherwise reports the
      message of the first check that fails. */
  lemma {:induction false} FirstErrorSpec(checks: seq<Check>, x: string)
    ensures FirstError(checks, x).Pass? <==> AllPass(checks, x)
    ensures FirstError(checks, x).Fail? ==>
      exists i: nat :: FirstFailureAt(checks, x, i) && FirstError(checks, x).message == checks[i].message
  {
    if |checks| == 0 {
    } else if !Passes(checks[0].rule, x) {
      assert FirstFailureAt(checks, x, 0);
    } else {
      FirstErrorSpec(checks[1..], x);
      var r := FirstError(checks[1..], x);
      if r.Fail? {
        var i: nat :| FirstFailureAt(checks[1..], x, i) && r.message == checks[1..][i].message;
        assert checks[..i + 1] == [checks[0]] + checks[1..][..i];
        assert FirstFailureAt(checks, x, i + 1);
      } else {
        assert forall j :: 1 <= j < |checks| ==> checks[j] == checks[1..][j - 1];
      }
    }
  }

  /** When an empty string fails both `required` and another test, which message yup
      reports is library behaviour; the model admits either order. */
  datatype Precedence = DeclaredOrder | RequiredFirst

  /** The order chosen for each field on its own, since the two chains need not
      resolve the empty string the same way. */
  datatype FieldPrecedence = FieldPrecedence(fullName: Precedence, size: Precedence)

  function For(p: FieldPrecedence, f: Field): Precedence {
    match f
    case FullName => p.fullName
    case Size => p.size
  }

  function KeepRequired(checks: seq<Check>, required: bool): seq<Check> {
    if |checks| == 0 then []
    else if checks[0].rule.Required? == required then [checks[0]] + KeepRequired(checks[1..], required)
    else KeepRequired(checks[1..], required)
  }

  lemma {:induction false} KeepRequiredSpec(checks: seq<Check>, required: bool)
    ensures forall c :: c in KeepRequired(checks, required) <==> c in checks && c.rule.Required? == required
  {
    if |checks| > 0 {
      KeepRequiredSpec(checks[1..], required);
      assert checks == [checks[0]] + checks[1..];
    }
  }

  /** The chain in the order the tests are reported under precedence `p`. */
  function Arrange(checks: seq<Check>, p: Precedence): seq<Check> {
    match p
    case DeclaredOrder => checks
    case RequiredFirst => KeepRequired(checks, true) + KeepRequired(checks, false)
  }

  /** Whatever the precedence, the reported order holds the declared checks and no others. */
  lemma ArrangeSpec(checks: seq<Check>, p: Precedence)
    ensures forall c :: c in Arrange(checks, p) <==> c in checks
  {
    KeepRequiredSpec(checks, true);
    KeepRequiredSpec(checks, false);
  }

  /** `yup.reach(validationSchema, f).validate(x)`: `Pass`, or the message of the
      failing test yup reports. */
  function Validate(f: Field, x: string, p: Precedence): Outcome {
    FirstError(Arrange(Rules(f), p), x)
  }

  /** The outcome of validating one field, read directly off the schema: which value
      gets which message, whatever the precedence. */
  lemma ValidateMeans(f: Field, x: string, p: Precedence)
    ensures var r := Validate(f, x, p);
      && (f == FullName && x != "" && Utf16Length(x) < 3 ==> r == Fail(FullNameTooShort))
      && (f == FullName && Utf16Length(x) > 20 ==> r == Fail(FullNameTooLong))
      && (f == FullName && 3 <= Utf16Length(x) <= 20 ==> r == Pass)
      && (f == FullName && x == "" ==> r == Fail(FullNameRequired) || r == Fail(FullNameTooShort))
      && (f == Size && x in Sizes ==> r == Pass)
      && (f == Size && x != "" && x !in Sizes ==> r == Fail(SizeIncorrect))
      && (f == Size && x == "" ==> r == Fail(SizeRequired) || r == Fail(SizeIncorrect))
  {
    ValidateReportsOwnTest(f, x, p);
    FieldValidMeans(f, x);
    var r := Validate(f, x, p);
    if r.Fail? {
      var i :| 0 <= i < |Rules(f)| && !Passes(Rules(f)[i].rule, x) && r.message == Rules(f)[i].message;
      if f == FullName {
        assert i == 0 || i == 1 || i == 2;
      } else {
        assert i == 0 || i == 1;
      }
    }
  }

  /** Validation passes when every test does, and otherwise reports the message of a
      test of the field's own chain that fails. */
  lemma ValidateReportsOwnTest(f: Field, x: string, p: Precedence)
    ensures Validate(f, x, p).Pass? <==> AllPass(Rules(f), x)
    ensures Validate(f, x, p).Fail? ==> exists i :: 0 <= i < |Rules(f)| && !Passes(Rules(f)[i].rule, x)
                                                     && Validate(f, x, p).message == Rules(f)[i].message
  {
    var checks := Arrange(Rules(f), p);
    ArrangeSpec(Rules(f), p);
    FirstErrorSpec(checks, x);
    var r := FirstError(checks, x);
    if r.Fail? {
      var i: nat :| FirstFailureAt(checks, x, i) && r.message == checks[i].message;
      assert checks[i] in Rules(f);
    } else {
      forall i | 0 <= i < |Rules(f)| ensures Passes(Rules(f)[i].rule, x) {
        assert Rules(f)[i] in checks;
      }
    }
  }

  /** The field's value meets every test of its chain. */
  predicate FieldValid(f: Field, x: string) {
    AllPass(Rules(f), x)
  }

  /** `validationSchema.isValid(v)`. */
  predicate ObjectValid(v: FormValues) {
    FieldValid(FullName, v.fullName) && FieldValid(Size, v.size)
  }

  /** The schema, read directly: a full name of 3 to 20 code units, a size of S, M or L. */
  lemma FieldValidMeans(f: Field, x: string)
    ensures f == FullName ==> (FieldValid(f, x) <==> 3 <= Utf16Length(x) <= 20)
    ensures f == Size ==> (FieldValid(f, x) <==> x in Sizes)
  {
    var rs := Rules(f);
    match f
    case FullName =>
      assert FieldValid(f, x) <==> Passes(rs[0].rule, x) && Passes(rs[1].rule, x) && Passes(rs[2].rule, x);
    case Size =>
      assert FieldValid(f, x) <==> Passes(rs[0].rule, x) && Passes(rs[1].rule, x);
      if x in Sizes {
        assert x == "S" || x == "M" || x == "L";
        assert |x| == 1;
      }
  }

  /** Whatever order yup reports failures in, a field passes exactly when it is valid. */
  lemma ValidatePassesIffValid(f: Field, x: string, p: Precedence)
    ensures Validate(f, x, p) == Pass <==> FieldValid(f, x)
  {
    ValidateReportsOwnTest(f, x, p);
  }

  /** The reported order matters only for the empty string. */
  lemma PrecedenceMattersOnlyWhenEmpty(f: Field, x: string)
    requires x != ""
    ensures Validate(f, x, DeclaredOrder) == Validate(f, x, RequiredFirst)
  {
    ValidateMeans(f, x, DeclaredOrder);
    ValidateMeans(f, x, RequiredFirst);
  }

  /** On the empty string the precedence decides the message: the declared order
      reports the field's own rule, `RequiredFirst` reports the required message. */
  lemma EmptyValueMessage(f: Field, p: Precedence)
    ensures p == DeclaredOrder ==> Validate(f, "", p) == Fail(if f == FullName then FullNameTooShort else SizeIncorrect)
    ensures p == RequiredFirst ==> Validate(f, "", p) == Fail(if f == FullName then FullNameRequired else SizeRequired)
  {
    var rs := Rules(f);
    if p == RequiredFirst {
      var last := rs[|rs| - 1];
      assert KeepRequired(rs, true) == [last] by {
        assert KeepRequired(rs[|rs| - 1..], true) == [last];
        if f == FullName {
          assert KeepRequired(rs[1..], true) == KeepRequired(rs[2..], true);
        }
      }
    }
  }

  /** The object is valid exactly when both fields are, and the toppings play no part. */
  lemma ObjectValidIgnoresToppings(v: FormValues, t: seq<string>)
    ensures ObjectValid(v) <==> 3 <= Utf16Length(v.fullName) <= 20 && v.size in Sizes
    ensures ObjectValid(v.(toppings := t)) == ObjectValid(v)
  {
    FieldValidMeans(FullName, v.fullName);
    FieldValidMeans(Size, v.size);
  }
}
