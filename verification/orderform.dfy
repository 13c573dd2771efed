/**
 The order form's state and its event handlers, each an atomic step. A value change
 (text, select or checkbox) is followed by re-gating: the submit control is disabled
 exactly when the whole-object schema check fails on the values as stored. The inline
 error of an edited field is computed on the trimmed value instead, so the two can
 disagree on padded input.
 */
module OrderForm {
  import opened JsString
  import opened Schema
  import opened Toppings

  /** The inline error of one field: none, or a schema message. */
  datatype Inline = Clear | Shown(message: Message)

  /** The text the form stores and renders for an inline error; "" is no error. */
  function Display(i: Inline): string {
    match i
    case Clear => ""
    case Shown(m) => Text(m)
  }

  /** Storing the message rather than its text loses nothing: the text is empty
      exactly when no error is shown, and different errors have different texts. */
  lemma DisplayIsFaithful(i: Inline, j: Inline)
    ensures Display(i) == "" <==> i == Clear
    ensures Display(i) == Display(j) ==> i == j
  {
    TextIsFaithful();
  }

  /** The inline error per field. */
  datatype Errors = Errors(fullName: Inline, size: Inline)

  datatype FormState = FormState(values: FormValues, errors: Errors, isDisabled: bool, message: string)

  /** The events the handlers receive. `SubmitClicked` carries the `message` of the
      order endpoint's response, which stands in for the network call. */
  datatype Event =
    | TextInput(field: Field, value: string)
    | CheckboxInput(name: string, checked: bool)
    | SubmitClicked(response: string)

  /** What a submission sends and the state it leaves behind. */
  datatype Submission = Submission(posted: FormValues, after: FormState)

  const InitialValues := FormValues("", "", [])
  const InitialErrors := Errors(Clear, Clear)

  function ErrorOf(e: Errors, f: Field): Inline {
    match f
    case FullName => e.fullName
    case Size => e.size
  }

  /** `{ ...e, [f]: m }` */
  function WithError(e: Errors, f: Field, m: Inline): (r: Errors)
    ensures ErrorOf(r, f) == m
    ensures ErrorOf(r, Other(f)) == ErrorOf(e, Other(f))
  {
    match f
    case FullName => e.(fullName := m)
    case Size => e.(size := m)
  }

  /** The inline error for a validation outcome. */
  function InlineOf(o: Outcome): Inline {
    match o
    case Pass => Clear
    case Fail(m) => Shown(m)
  }

  /** The submit gate agrees with the schema on the stored values. */
  predicate GateConsistent(s: FormState) {
    s.isDisabled == !ObjectValid(s.values)
  }

  /** `checkValidation`, run by the effect on every change of the values. */
  function Regate(s: FormState): (r: FormState)
    ensures GateConsistent(r)
    ensures r.values == s.values && r.errors == s.errors && r.message == s.message
  {
    s.(isDisabled := !ObjectValid(s.values))
  }

  /** The state right after mounting: `useState` defaults, then the first effect run. */
  function Initial(): (s: FormState)
    ensures s.values.fullName == "" && s.values.size == "" && s.values.toppings == []
    ensures s.errors.fullName == Clear && s.errors.size == Clear && s.message == ""
    ensures s.isDisabled && GateConsistent(s)
  {
    var s0 := FormState(InitialValues, InitialErrors, true, "");
    assert !FieldValid(FullName, s0.values.fullName) by {
      assert !Passes(Rules(FullName)[0].rule, "");
    }
    Regate(s0)
  }

  /** `handleTextChange` for the input or select whose id is `f`: the value is stored
      as typed, the inline error comes from validating the trimmed value. */
  function HandleTextChange(s: FormState, f: Field, value: string, p: FieldPrecedence): (r: FormState)
    ensures ValueOf(r.values, f) == value
    ensures ValueOf(r.values, Other(f)) == ValueOf(s.values, Other(f))
    ensures r.values.toppings == s.values.toppings
    ensures ErrorOf(r.errors, Other(f)) == ErrorOf(s.errors, Other(f))
    ensures r.isDisabled == s.isDisabled && r.message == s.message
  {
    s.(values := WithValue(s.values, f, value), errors := WithError(s.errors, f, InlineOf(Validate(f, Trim(value), For(p, f)))))
  }

  /** The inline error `handleTextChange` leaves is empty exactly when the trimmed value
      is valid, and is otherwise the message yup reports for it. */
  lemma TextChangeError(s: FormState, f: Field, value: string, p: FieldPrecedence)
    ensures var r := HandleTextChange(s, f, value, p);
      && (ErrorOf(r.errors, f) == Clear <==> FieldValid(f, Trim(value)))
      && (ErrorOf(r.errors, f).Shown? ==> Validate(f, Trim(value), For(p, f)) == Fail(ErrorOf(r.errors, f).message))
  {
    ValidatePassesIffValid(f, Trim(value), For(p, f));
  }

  /** `handleCheckboxChange` for the topping box named `name`, now `checked`. */
  function HandleCheckboxChange(s: FormState, name: string, checked: bool): (r: FormState)
    ensures checked ==> r.values.toppings == s.values.toppings + [name]
    ensures r.values.fullName == s.values.fullName && r.values.size == s.values.size
    ensures r.errors == s.errors && r.isDisabled == s.isDisabled && r.message == s.message
  {
    var t := if checked then s.values.toppings + [name] else Remove(s.values.toppings, name);
    s.(values := s.values.(toppings := t))
  }

  /** Clearing a box takes its id out of the selection, keeps every other id, and
      changes nothing when the id was not selected. */
  lemma UncheckEffect(s: FormState, name: string)
    ensures var t := HandleCheckboxChange(s, name, false).values.toppings;
      && name !in t
      && (forall y :: y != name ==> (y in t <==> y in s.values.toppings))
      && (name !in s.values.toppings ==> t == s.values.toppings)
  {
    RemoveSpec(s.values.toppings, name);
  }

  /** `handleSubmit` once the endpoint has answered with `response`. */
  function HandleSubmit(s: FormState, response: string): (r: Submission)
    ensures r.posted == s.values
    ensures r.after.message == response
    ensures r.after.values == InitialValues
    ensures r.after.errors == s.errors && r.after.isDisabled == s.isDisabled
  {
    Submission(s.values, s.(message := response, values := InitialValues))
  }

  /** One user event. Every handler that sets the values is followed by the effect
      that re-gates; a click on the disabled submit control does nothing. */
  function Step(s: FormState, e: Event, p: FieldPrecedence): (r: FormState)
    ensures !(e.SubmitClicked? && s.isDisabled) ==> GateConsistent(r)
    ensures e.SubmitClicked? && s.isDisabled ==> r == s
    ensures e.SubmitClicked? && !s.isDisabled ==>
      r.message == e.response && r.values == InitialValues && r.errors == s.errors && r.isDisabled
  {
    match e
    case TextInput(f, value) => Regate(HandleTextChange(s, f, value, p))
    case CheckboxInput(name, checked) => Regate(HandleCheckboxChange(s, name, checked))
    case SubmitClicked(response) =>
      if s.isDisabled then s
      else
        ObjectValidIgnoresToppings(InitialValues, []);
        Regate(HandleSubmit(s, response).after)
  }

  function Run(s: FormState, events: seq<Event>, p: FieldPrecedence): FormState
    decreases |events|
  {
    if |events| == 0 then s else Run(Step(s, events[0], p), events[1..], p)
  }

  /** Whatever happens, the submit control is enabled exactly when the stored
      values satisfy the schema. */
  lemma {:induction false} RunKeepsGate(s: FormState, events: seq<Event>, p: FieldPrecedence)
    requires GateConsistent(s)
    ensures GateConsistent(Run(s, events, p))
    decreases |events|
  {
    if |events| > 0 {
      RunKeepsGate(Step(s, events[0], p), events[1..], p);
    }
  }

  lemma ReachableStatesAreGated(events: seq<Event>, p: FieldPrecedence)
    ensures GateConsistent(Run(Initial(), events, p))
  {
    RunKeepsGate(Initial(), events, p);
  }

  /** Toggling a topping never opens or closes the gate. */
  lemma CheckboxNeverMovesGate(s: FormState, name: string, checked: bool, p: FieldPrecedence)
    requires GateConsistent(s)
    ensures Step(s, CheckboxInput(name, checked), p).isDisabled == s.isDisabled
  {
    var t := HandleCheckboxChange(s, name, checked).values.toppings;
    ObjectValidIgnoresToppings(s.values, t);
    assert HandleCheckboxChange(s, name, checked).values == s.values.(toppings := t);
  }

  /** A topping click changes the selection and nothing else, gate included. */
  lemma CheckboxStepEffect(s: FormState, name: string, checked: bool, p: FieldPrecedence)
    requires GateConsistent(s)
    ensures Step(s, CheckboxInput(name, checked), p)
         == s.(values := s.values.(toppings := if checked then s.values.toppings + [name]
                                               else Remove(s.values.toppings, name)))
  {
    CheckboxNeverMovesGate(s, name, checked, p);
  }

  /** A text change to one field touches that field's value and inline error only;
      the gate then follows the schema on the untrimmed values. */
  lemma TextInputEffect(s: FormState, f: Field, value: string, p: FieldPrecedence)
    ensures var r := Step(s, TextInput(f, value), p);
      && ValueOf(r.values, f) == value
      && ValueOf(r.values, Other(f)) == ValueOf(s.values, Other(f))
      && r.values.toppings == s.values.toppings
      && (ErrorOf(r.errors, f) == Clear <==> FieldValid(f, Trim(value)))
      && (ErrorOf(r.errors, f).Shown? ==> Validate(f, Trim(value), For(p, f)) == Fail(ErrorOf(r.errors, f).message))
      && ErrorOf(r.errors, Other(f)) == ErrorOf(s.errors, Other(f))
      && (r.isDisabled <==> !FieldValid(f, value) || !FieldValid(Other(f), ValueOf(s.values, Other(f))))
      && r.message == s.message
  {
    TextChangeError(s, f, value, p);
    assert Step(s, TextInput(f, value), p) == Regate(HandleTextChange(s, f, value, p));
  }

  /** On a value without surrounding white space the inline error and the gate agree
      about the edited field. */
  lemma UnpaddedInlineMatchesGate(s: FormState, f: Field, value: string, p: FieldPrecedence)
    requires Unpadded(value)
    ensures var r := Step(s, TextInput(f, value), p);
      ErrorOf(r.errors, f) == Clear <==> FieldValid(f, ValueOf(r.values, f))
  {
    TrimOfUnpadded(value);
    TextInputEffect(s, f, value, p);
  }

  /** The check of a topping box reflects the selection, so a box is checked exactly
      when its id is absent beforehand. */
  predicate Coherent(s: FormState, e: Event) {
    e.CheckboxInput? ==> InCatalog(e.name) && e.checked == (e.name !in s.values.toppings)
  }

  ghost predicate ControlledRun(s: FormState, events: seq<Event>, p: FieldPrecedence)
    decreases |events|
  {
    |events| == 0 || (Coherent(s, events[0]) && ControlledRun(Step(s, events[0], p), events[1..], p))
  }

  predicate ToppingsWellFormed(t: seq<string>) {
    Distinct(t) && forall i :: 0 <= i < |t| ==> InCatalog(t[i])
  }

  /** One coherent step keeps the selection a duplicate-free list of catalog ids. */
  lemma StepKeepsToppings(s: FormState, e: Event, p: FieldPrecedence)
    requires ToppingsWellFormed(s.values.toppings) && Coherent(s, e)
    ensures ToppingsWellFormed(Step(s, e, p).values.toppings)
  {
    var t := s.values.toppings;
    if e.CheckboxInput? {
      var t' := Step(s, e, p).values.toppings;
      if e.checked {
        AppendKeepsDistinct(t, e.name);
        assert t' == t + [e.name];
      } else {
        RemoveKeepsDistinct(t, e.name);
        RemoveSpec(t, e.name);
        assert t' == Remove(t, e.name);
        forall i | 0 <= i < |t'| ensures InCatalog(t'[i]) {
          assert t'[i] in t;
        }
      }
    }
  }

  /** With the boxes driven from the selection itself, the selection stays a
      duplicate-free list of catalog ids. */
  lemma {:induction false} ControlledRunKeepsToppings(s: FormState, events: seq<Event>, p: FieldPrecedence)
    requires ToppingsWellFormed(s.values.toppings)
    requires ControlledRun(s, events, p)
    ensures ToppingsWellFormed(Run(s, events, p).values.toppings)
    decreases |events|
  {
    if |events| > 0 {
      StepKeepsToppings(s, events[0], p);
      ControlledRunKeepsToppings(Step(s, events[0], p), events[1..], p);
    }
  }

  lemma RunCons(s: FormState, e: Event, rest: seq<Event>, p: FieldPrecedence)
    ensures Run(s, [e] + rest, p) == Run(Step(s, e, p), rest, p)
  {
    assert ([e] + rest)[1..] == rest;
  }

  lemma RunOne(s: FormState, a: Event, p: FieldPrecedence)
    ensures Run(s, [a], p) == Step(s, a, p)
  {
    RunCons(s, a, [], p);
    assert [a] + [] == [a];
  }

  lemma RunTwo(s: FormState, a: Event, b: Event, p: FieldPrecedence)
    ensures Run(s, [a, b], p) == Step(Step(s, a, p), b, p)
  {
    RunCons(s, a, [b], p);
    assert [a] + [b] == [a, b];
    RunOne(Step(s, a, p), b, p);
  }

  /** Checking a box that was clear and then clearing it again restores the form
      exactly, gate included. */
  lemma CheckThenUncheckRestores(s: FormState, name: string, p: FieldPrecedence)
    requires GateConsistent(s) && name !in s.values.toppings
    ensures Run(s, [CheckboxInput(name, true), CheckboxInput(name, false)], p) == s
  {
    var s1 := Step(s, CheckboxInput(name, true), p);
    var s2 := Step(s1, CheckboxInput(name, false), p);
    CheckThenUncheck(s.values.toppings, name);
    assert s2.values == s.values;
    RunTwo(s, CheckboxInput(name, true), CheckboxInput(name, false), p);
  }

  /** A full name of fewer than three code units keeps the submit control disabled,
      whatever the size and toppings. */
  lemma ShortNameBlocksSubmit(s: FormState, p: FieldPrecedence)
    ensures Step(s, TextInput(FullName, "Al"), p).isDisabled
  {
    TextInputEffect(s, FullName, "Al", p);
    assert Utf16Length("Al") == 2;
    FieldValidMeans(FullName, "Al");
  }

  /** Typing a valid value without surrounding white space clears the field's inline
      error and stores the value. */
  lemma ValidTextStep(s: FormState, f: Field, value: string, p: FieldPrecedence)
    requires Unpadded(value) && FieldValid(f, value)
    ensures var r := Step(s, TextInput(f, value), p);
      && r.values == WithValue(s.values, f, value)
      && r.errors == WithError(s.errors, f, Clear)
      && r.message == s.message
  {
    TrimOfUnpadded(value);
    TextInputEffect(s, f, value, p);
  }

  /** Each size the schema accepts is a single character without white space. */
  lemma SizeIsUnpadded(size: string)
    requires size in Sizes
    ensures Unpadded(size) && FieldValid(Size, size)
  {
    assert size == "S" || size == "M" || size == "L";
    FieldValidMeans(Size, size);
  }

  /** Filling in a valid name and then a valid size opens the gate with no inline error. */
  lemma FillForm(name: string, size: string, p: FieldPrecedence)
    requires Unpadded(name) && 3 <= Utf16Length(name) <= 20 && size in Sizes
    ensures Run(Initial(), [TextInput(FullName, name), TextInput(Size, size)], p)
         == FormState(FormValues(name, size, []), Errors(Clear, Clear), false, "")
  {
    FieldValidMeans(FullName, name);
    SizeIsUnpadded(size);
    var s0 := Initial();
    ValidTextStep(s0, FullName, name, p);
    var s1 := Step(s0, TextInput(FullName, name), p);
    ValidTextStep(s1, Size, size, p);
    var s2 := Step(s1, TextInput(Size, size), p);
    assert s2.values == FormValues(name, size, []) && s2.errors == Errors(Clear, Clear) && s2.message == "";
    assert !s2.isDisabled by {
      ObjectValidIgnoresToppings(s2.values, []);
    }
    RunTwo(s0, TextInput(FullName, name), TextInput(Size, size), p);
  }

  /** A submission the gate lets through shows the response, resets the values and
      closes the gate; the inline errors stay as they were. */
  lemma SubmitStepEffect(s: FormState, response: string, p: FieldPrecedence)
    requires !s.isDisabled
    ensures Step(s, SubmitClicked(response), p) == FormState(FormValues("", "", []), s.errors, true, response)
  {
  }

  /** An order from a fresh form: once a valid name and size are entered (and any
      toppings checked) the gate opens with no inline error, the submission posts the
      values as entered, and the response is shown while the form resets and the gate
      closes. */
  lemma OrderRoundTrip(name: string, size: string, ids: seq<string>, response: string, p: FieldPrecedence)
    requires Unpadded(name) && 3 <= Utf16Length(name) <= 20 && size in Sizes
    ensures var s := Run(Initial(), [TextInput(FullName, name), TextInput(Size, size)] + Checks(ids), p);
      && s == FormState(FormValues(name, size, ids), Errors(Clear, Clear), false, "")
      && HandleSubmit(s, response).posted == FormValues(name, size, ids)
      && Step(s, SubmitClicked(response), p) == FormState(FormValues("", "", []), Errors(Clear, Clear), true, response)
  {
    var filled := [TextInput(FullName, name), TextInput(Size, size)];
    var s2 := FormState(FormValues(name, size, []), Errors(Clear, Clear), false, "");
    var s4 := FormState(FormValues(name, size, ids), Errors(Clear, Clear), false, "");
    assert Run(Initial(), filled + Checks(ids), p) == s4 by {
      FillForm(name, size, p);
      RunAppend(Initial(), filled, Checks(ids), p);
      assert GateConsistent(s2) by {
        ObjectValidIgnoresToppings(s2.values, []);
        FieldValidMeans(FullName, name);
        FieldValidMeans(Size, size);
      }
      RunChecks(s2, ids, p);
      assert s2.values.toppings + ids == ids;
    }
    SubmitStepEffect(s4, response, p);
  }

  /** Clicks that check each of `ids` in turn. */
  function Checks(ids: seq<string>): (events: seq<Event>)
    ensures |events| == |ids|
    ensures forall i :: 0 <= i < |ids| ==> events[i] == CheckboxInput(ids[i], true)
  {
    if |ids| == 0 then [] else [CheckboxInput(ids[0], true)] + Checks(ids[1..])
  }

  lemma {:induction false} RunAppend(s: FormState, a: seq<Event>, b: seq<Event>, p: FieldPrecedence)
    ensures Run(s, a + b, p) == Run(Run(s, a, p), b, p)
    decreases |a|
  {
    if |a| == 0 {
      assert a + b == b;
    } else {
      assert (a + b)[1..] == a[1..] + b;
      RunAppend(Step(s, a[0], p), a[1..], b, p);
    }
  }

  /** Checking boxes appends their ids in click order and leaves the rest alone. */
  lemma {:induction false} RunChecks(s: FormState, ids: seq<string>, p: FieldPrecedence)
    requires GateConsistent(s)
    ensures Run(s, Checks(ids), p) == s.(values := s.values.(toppings := s.values.toppings + ids))
    decreases |ids|
  {
    if |ids| > 0 {
      var t := s.values.toppings + [ids[0]];
      FirstCheck(s, ids, p);
      RunChecks(s.(values := s.values.(toppings := t)), ids[1..], p);
      assert t + ids[1..] == s.values.toppings + ids;
    } else {
      assert s.values.toppings + ids == s.values.toppings;
    }
  }

  /** The first of the clicks appends its id; the gate stays consistent. */
  lemma FirstCheck(s: FormState, ids: seq<string>, p: FieldPrecedence)
    requires GateConsistent(s) && |ids| > 0
    ensures var s1 := s.(values := s.values.(toppings := s.values.toppings + [ids[0]]));
      Run(s, Checks(ids), p) == Run(s1, Checks(ids[1..]), p) && GateConsistent(s1)
  {
    var e := CheckboxInput(ids[0], true);
    CheckboxStepEffect(s, ids[0], true, p);
    ObjectValidIgnoresToppings(s.values, s.values.toppings + [ids[0]]);
    assert Checks(ids) == [e] + Checks(ids[1..]);
    RunCons(s, e, Checks(ids[1..]), p);
  }

  /** The end-to-end order of a fresh form with name "Jane Doe", size "M" and
      toppings "1" and "3", answered with "order placed". */
  lemma JaneDoeOrder(p: FieldPrecedence)
    ensures var s := Run(Initial(), [TextInput(FullName, "Jane Doe"), TextInput(Size, "M"),
                                     CheckboxInput("1", true), CheckboxInput("3", true)], p);
      && s == FormState(FormValues("Jane Doe", "M", ["1", "3"]), Errors(Clear, Clear), false, "")
      && HandleSubmit(s, "order placed").posted == FormValues("Jane Doe", "M", ["1", "3"])
      && Step(s, SubmitClicked("order placed"), p) == FormState(FormValues("", "", []), Errors(Clear, Clear), true, "order placed")
  {
    var name := "Jane Doe";
    var evs := [TextInput(FullName, name), TextInput(Size, "M"), CheckboxInput("1", true), CheckboxInput("3", true)];
    assert evs == [TextInput(FullName, name), TextInput(Size, "M")] + Checks(["1", "3"]) by {
      assert Checks(["1", "3"]) == [CheckboxInput("1", true), CheckboxInput("3", true)];
    }
    JaneDoeIsValid();
    OrderRoundTrip(name, "M", ["1", "3"], "order placed", p);
  }

  lemma JaneDoeIsValid()
    ensures Unpadded("Jane Doe") && Utf16Length("Jane Doe") == 8
  {
    var s := "Jane Doe";
    assert Unpadded(s) by {
      assert !IsWhiteSpace(s[0]) && !IsWhiteSpace(s[|s| - 1]);
    }
    assert forall i :: 0 <= i < |s| ==> s[i] <= '\U{FFFF}';
    Utf16LengthOfBmp(s);
  }

  /** A short name wrapped in two spaces each side gets the too-short inline error
      (trimmed value), yet passes the gate (value as typed) once a size is chosen. */
  lemma PaddedShortNameStep(s: FormState, core: string, p: FieldPrecedence)
    requires Unpadded(core) && 1 <= Utf16Length(core) < 3 && s.values.size in Sizes
    ensures var r := Step(s, TextInput(FullName, "  " + core + "  "), p);
      r.errors.fullName == Shown(FullNameTooShort) && !r.isDisabled
  {
    var name := "  " + core + "  ";
    var r := Step(s, TextInput(FullName, name), p);
    TrimPadded("  ", core, "  ");
    assert 3 <= Utf16Length(name) <= 20 by {
      Utf16LengthConcat("  " + core, "  ");
      Utf16LengthConcat("  ", core);
      assert Utf16Length("  ") == 2;
    }
    TextInputEffect(s, FullName, name, p);
    assert r.errors.fullName == Shown(FullNameTooShort) by {
      FieldValidMeans(FullName, core);
      assert core != "";
      ValidateMeans(FullName, core, For(p, FullName));
    }
    assert !r.isDisabled by {
      FieldValidMeans(FullName, name);
      FieldValidMeans(Size, s.values.size);
    }
  }

  /** A name of 19 or 20 code units wrapped in one space each side shows no inline
      error (trimmed value), yet keeps the gate closed (value as typed). */
  lemma PaddedLongNameStep(s: FormState, core: string, p: FieldPrecedence)
    requires Unpadded(core) && 19 <= Utf16Length(core) <= 20
    ensures var r := Step(s, TextInput(FullName, " " + core + " "), p);
      r.errors.fullName == Clear && r.isDisabled
  {
    var name := " " + core + " ";
    TrimPadded(" ", core, " ");
    assert Utf16Length(name) > 20 by {
      Utf16LengthConcat(" " + core, " ");
      Utf16LengthConcat(" ", core);
      assert Utf16Length(" ") == 1;
    }
    TextInputEffect(s, FullName, name, p);
    FieldValidMeans(FullName, core);
    FieldValidMeans(FullName, name);
  }

  /** The quirk from a fresh form on concrete input: after choosing size "M", the
      name "  ab  " is reported too short inline, yet the order can be submitted. */
  lemma PaddedAbQuirk(p: FieldPrecedence)
    ensures var s := Run(Initial(), [TextInput(Size, "M"), TextInput(FullName, "  ab  ")], p);
      s.errors.fullName == Shown(FullNameTooShort) && !s.isDisabled
  {
    var s1 := Step(Initial(), TextInput(Size, "M"), p);
    assert s1.values.size == "M" by {
      TextInputEffect(Initial(), Size, "M", p);
    }
    AbIsShort();
    assert "  " + "ab" + "  " == "  ab  ";
    PaddedShortNameStep(s1, "ab", p);
    RunTwo(Initial(), TextInput(Size, "M"), TextInput(FullName, "  ab  "), p);
  }

  lemma AbIsShort()
    ensures Unpadded("ab") && Utf16Length("ab") == 2
  {
    var s := "ab";
    assert Unpadded(s) by {
      assert !IsWhiteSpace(s[0]) && !IsWhiteSpace(s[|s| - 1]);
    }
    assert forall i :: 0 <= i < |s| ==> s[i] <= '\U{FFFF}';
    Utf16LengthOfBmp(s);
  }

  /** Emptying a field shows the message its own order reports for the empty string:
      the field's rule under the declared order, `required` otherwise. */
  lemma EmptyEntryMessage(s: FormState, f: Field, p: FieldPrecedence)
    ensures ErrorOf(Step(s, TextInput(f, ""), p).errors, f)
         == Shown(if For(p, f) == DeclaredOrder then (if f == FullName then FullNameTooShort else SizeIncorrect)
                  else (if f == FullName then FullNameRequired else SizeRequired))
  {
    assert Trim("") == "";
    FieldValidMeans(f, "");
    TextInputEffect(s, f, "", p);
    EmptyValueMessage(f, For(p, f));
  }

  /** The two fields resolve the empty string independently: with the declared order
      for the name and `required` first for the size, clearing both from a fresh form
      shows the too-short message and the size-required message side by side. */
  lemma MixedEmptyMessages()
    ensures var p := FieldPrecedence(DeclaredOrder, RequiredFirst);
      Run(Initial(), [TextInput(FullName, ""), TextInput(Size, "")], p).errors
        == Errors(Shown(FullNameTooShort), Shown(SizeRequired))
  {
    var p := FieldPrecedence(DeclaredOrder, RequiredFirst);
    var s1 := Step(Initial(), TextInput(FullName, ""), p);
    EmptyEntryMessage(Initial(), FullName, p);
    var s2 := Step(s1, TextInput(Size, ""), p);
    EmptyEntryMessage(s1, Size, p);
    TextInputEffect(s1, Size, "", p);
    assert s2.errors == Errors(Shown(FullNameTooShort), Shown(SizeRequired));
    RunTwo(Initial(), TextInput(FullName, ""), TextInput(Size, ""), p);
  }
}
