# Pizza order form — a Dafny model

This project models the order form of a small single-page pizza-ordering UI
(`frontend/components/Form.js`). The form holds a full name, a size and a list of
topping ids. It shows an inline error under each text field and enables its submit
control only while the whole form passes a yup validation schema. Submitting posts the
values and then resets the form.

The model is functional. A `FormState` is an immutable value, and each event handler is
a pure step function. Every value change is followed by re-gating, which is the effect
the component runs whenever `formValues` changes.

- `JsString` (`jsstring.dfy`) models the two JavaScript string operations the form
  relies on. `Trim` is `String.prototype.trim` over the WhiteSpace and LineTerminator
  code points of ECMA-262. `Utf16Length` is `length`, counted in UTF-16 code units.
- `Schema` (`schema.dfy`) models the validation schema. Each field has a chain of yup
  string tests (`min`/`max` are length bounds, `oneOf` is membership, `required` means
  non-empty), each with its fixed message. Validating one field reports the first
  failing test. The object is valid when every test of every field passes, and the
  undeclared `toppings` key plays no part.
  The messages are an enumeration `Message`, and `Text` gives the string each one
  reports; no text is empty and no two coincide (`TextIsFaithful`).
- `Toppings` (`toppings.dfy`) holds the five-entry topping catalog and the uncheck
  filter `Remove`.
- `OrderForm` (`orderform.dfy`) holds the state, the three handlers, the gated `Step`,
  `Run` over a sequence of events, and the invariants and scenarios. An inline error
  is `Clear` (the code's `''`) or `Shown(m)` for a schema message `m`. `Display`
  gives the text the code stores, and `DisplayIsFaithful` shows the two forms carry
  the same information.

Two points of the form's behaviour are made explicit.

- **Inline error versus gate.** The inline error of an edited field is computed on the
  *trimmed* value. The submit gate validates the values *as typed*. So `"  ab  "` is
  reported too short inline, yet the order can be submitted (`PaddedShortNameStep`,
  `PaddedAbQuirk`). Conversely, a 20-character name padded with one space each side
  shows no inline error, yet keeps the gate closed (`PaddedLongNameStep`). This is
  the behaviour of the code, so the model keeps it.
- **Which message wins on an empty value.** An empty full name fails both `min(3)` and
  `required`, and an empty size fails both `oneOf` and `required`. Which message yup
  reports is library behaviour, so every operation takes a `FieldPrecedence`: one
  `Precedence` (`DeclaredOrder` or `RequiredFirst`) per field. The two fields may
  therefore resolve an empty value differently, for example `min` first for the name
  and `required` first for the size (`MixedEmptyMessages`). Every property is proved
  for every choice. `PrecedenceMattersOnlyWhenEmpty` shows the choice is invisible on
  any non-empty value.

Two further points of the form's behaviour, as the code implements it:

- the selected toppings are an ordered list (append on check, filter on uncheck), not a
  set;
- a successful submit leaves the inline errors as they were; it does not clear them.

## Model

| member | source | states |
|---|---|---|
| JsString.TrimSpec | frontend/components/Form.js:70 | The result is the input with exactly its leading and trailing white space removed: it has no white space at either end and sits in the input with only white space around it. |
| JsString.TrimStartSpec | frontend/components/Form.js:70 | Trimming the start removes a white-space prefix of the input and stops at the first character that is not white space. |
| JsString.TrimEndSpec | frontend/components/Form.js:70 | Trimming the end removes a white-space suffix of the input and stops at the last character that is not white space. |
| JsString.TrimOfIsUnique | frontend/components/Form.js:70 | At most one string is a trim of a given input, so the characterisation of `Trim` determines it. |
| JsString.TrimOfUnpadded | frontend/components/Form.js:70 | Trim leaves a string unchanged exactly when neither end of it is white space. |
| JsString.TrimIdempotent | frontend/components/Form.js:70 | Trimming twice gives the same result as trimming once. |
| JsString.TrimPadded | frontend/components/Form.js:70 | Wrapping an unpadded string in white space on either side and then trimming gives the string back. |
| JsString.Utf16Length | frontend/components/Form.js:16-17 | The length yup's `min`/`max` compare, in UTF-16 code units, lies between the number of characters and twice that number. |
| JsString.Utf16LengthOfBmp | frontend/components/Form.js:16-17 | The length yup's `min`/`max` compare equals the number of characters exactly when no character lies beyond the Basic Multilingual Plane. |
| JsString.Utf16LengthConcat | frontend/components/Form.js:16-17 | That length adds up over concatenation. |
| Schema.WithValue | frontend/components/Form.js:66 | Setting one field by its id stores the value there and leaves the other field and the toppings unchanged. |
| Schema.FirstErrorSpec | frontend/components/Form.js:13-23 | A test chain passes exactly when every test passes. On failure, the message belongs to a failing test that every earlier test passes. |
| Schema.KeepRequiredSpec | frontend/components/Form.js:14-22 | Selecting the `required` tests, or all the others, keeps exactly those tests of the chain. |
| Schema.ArrangeSpec | frontend/components/Form.js:13-23 | Whatever the precedence, the reported order holds exactly the declared tests. |
| Schema.ValidateReportsOwnTest | frontend/components/Form.js:68-72 | Validating one field passes exactly when every test of its chain passes. Otherwise it reports the message of one of that chain's failing tests. |
| Schema.ValidateMeans | frontend/components/Form.js:6-23 | A non-empty name under 3 code units gives "full name must be at least 3 characters". Over 20 gives "full name must be at most 20 characters". 3 to 20 passes. S, M, L pass. Any other non-empty size gives "size must be S or M or L". An empty value gives the field's required message or its rule's message. |
| Schema.EmptyValueMessage | frontend/components/Form.js:14-22 | On an empty value, the declared order reports the rule's message and `RequiredFirst` reports the required message. |
| Schema.PrecedenceMattersOnlyWhenEmpty | frontend/components/Form.js:14-22 | On any non-empty value, both precedences give the same outcome. |
| Schema.FieldValidMeans | frontend/components/Form.js:13-23 | A full name passes its chain exactly when its length is 3 to 20 code units. A size passes exactly when it is S, M or L. |
| Schema.ValidatePassesIffValid | frontend/components/Form.js:51-73 | Single-field validation passes exactly when the field satisfies the schema, under either precedence, so inline validation and the gate use one rule set. |
| Schema.ObjectValidIgnoresToppings | frontend/components/Form.js:13-23 | The whole object is valid exactly when the name has 3 to 20 code units and the size is S, M or L. Replacing the toppings never changes validity. |
| Schema.TextIsFaithful | frontend/components/Form.js:6-22 | No message text is empty and no two messages share a text, so the enumeration of messages loses nothing. |
| Toppings.CatalogShape | frontend/components/Form.js:26-32 | The catalog has five entries with pairwise distinct ids, and its ids are exactly "1" to "5". |
| Toppings.RemoveSpec | frontend/components/Form.js:85 | Filtering out an id removes every occurrence of it. Every other id keeps its multiplicity. A list without the id comes back unchanged. |
| Toppings.RemoveConcat | frontend/components/Form.js:85 | Filtering distributes over concatenation. With `RemoveSingleton` this fixes the order of the ids that remain. |
| Toppings.RemoveSingleton | frontend/components/Form.js:85 | Filtering one element drops it if it is the id and keeps it otherwise. |
| Toppings.CheckThenUncheck | frontend/components/Form.js:77-86 | Appending an absent id and then filtering it out restores the original list exactly. |
| Toppings.RemoveKeepsDistinct | frontend/components/Form.js:83-86 | Filtering keeps a duplicate-free list duplicate-free. |
| Toppings.AppendKeepsDistinct | frontend/components/Form.js:78-81 | Appending an absent id keeps a duplicate-free list duplicate-free. |
| OrderForm.WithError | frontend/components/Form.js:71-72 | Setting one field's error stores it and leaves the other field's error unchanged. |
| OrderForm.DisplayIsFaithful | frontend/components/Form.js:40-43 | An inline error's text is empty exactly when no error is shown, and different inline errors have different texts. |
| OrderForm.Regate | frontend/components/Form.js:51-58 | Re-gating sets the gate to the negation of whole-object validity and changes nothing else. |
| OrderForm.Initial | frontend/components/Form.js:34-62 | The mounted form has an empty name, an empty size, no toppings, no inline errors and an empty message. The submit control is disabled, which agrees with the schema on the initial values. |
| OrderForm.HandleTextChange | frontend/components/Form.js:64-73 | A text or select change stores the value in its own field only. The toppings, the other field's error, the gate and the message are unchanged. |
| OrderForm.TextChangeError | frontend/components/Form.js:68-72 | After a text change, that field's inline error is clear exactly when the trimmed value is valid. Otherwise it is the message validation reports for the trimmed value. |
| OrderForm.HandleCheckboxChange | frontend/components/Form.js:75-88 | Checking appends the id at the end. Name, size, errors, gate and message are unchanged. |
| OrderForm.UncheckEffect | frontend/components/Form.js:82-86 | Unchecking removes every occurrence of the id, keeps all other ids, and is a no-op on a list without the id. |
| OrderForm.HandleSubmit | frontend/components/Form.js:90-95 | A submit posts the current values, shows the response message and resets the values. The errors and the gate flag are untouched until re-gating. |
| OrderForm.Step | frontend/components/Form.js:60-95 | After any value change, the gate agrees with the schema on the stored values. A click on the disabled submit control changes nothing. An enabled submit shows the response, resets the values, keeps the errors and leaves the gate closed. |
| OrderForm.RunKeepsGate | frontend/components/Form.js:51-62 | Over any sequence of events, the gate stays consistent with the schema on the untrimmed values. |
| OrderForm.ReachableStatesAreGated | frontend/components/Form.js:46-62 | Every state reachable from the mounted form has its submit control enabled exactly when the values satisfy the schema. |
| OrderForm.CheckboxNeverMovesGate | frontend/components/Form.js:75-88 | Checking or unchecking a topping never opens or closes the gate. |
| OrderForm.CheckboxStepEffect | frontend/components/Form.js:75-88 | A topping click changes the toppings list and nothing else. |
| OrderForm.TextInputEffect | frontend/components/Form.js:64-73 | A text change sets only its field and that field's error. The error is clear exactly when the trimmed value is valid. Afterwards the gate is closed exactly when the untrimmed new value or the other field's value fails its rule. |
| OrderForm.UnpaddedInlineMatchesGate | frontend/components/Form.js:53-70 | For a value with no white space at either end, the inline error is clear exactly when the gate accepts that field. |
| OrderForm.StepKeepsToppings | frontend/components/Form.js:75-88 | A step whose checkbox state reflects the selection keeps the toppings a duplicate-free list of catalog ids. |
| OrderForm.ControlledRunKeepsToppings | frontend/components/Form.js:132-143 | While each box's checked state is derived from the selection, the toppings stay a duplicate-free list of catalog ids over any run. |
| OrderForm.CheckThenUncheckRestores | frontend/components/Form.js:75-88 | Checking a box whose id is not selected and then unchecking it restores the whole form state. |
| OrderForm.ShortNameBlocksSubmit | frontend/components/Form.js:51-73 | Typing the two-character name "Al" leaves the submit control disabled, whatever the size and toppings. |
| OrderForm.ValidTextStep | frontend/components/Form.js:64-73 | Typing a valid value with no white space at either end stores it and clears that field's error. |
| OrderForm.FillForm | frontend/components/Form.js:51-73 | From the mounted form, typing a valid name and then choosing a size opens the gate with no inline errors. |
| OrderForm.RunChecks | frontend/components/Form.js:75-81 | Checking a series of boxes appends their ids in click order and changes nothing else. |
| OrderForm.SubmitStepEffect | frontend/components/Form.js:90-95 | An enabled submit gives exactly the reset values, the old errors, a closed gate and the response message. |
| OrderForm.OrderRoundTrip | frontend/components/Form.js:51-95 | Filling a valid name and size and checking toppings leaves an open gate with no errors. Submitting posts exactly the entered values, shows the response and resets to the empty form with the gate closed. |
| OrderForm.JaneDoeOrder | frontend/components/Form.js:90-95 | The order "Jane Doe", size "M", toppings "1" and "3" opens the gate and posts exactly those values. The response "order placed" is shown and the form resets to empty. |
| OrderForm.PaddedShortNameStep | frontend/components/Form.js:53-70 | With a valid size, a 1- or 2-unit name padded with two spaces each side gets the too-short inline error, yet the gate opens. |
| OrderForm.PaddedLongNameStep | frontend/components/Form.js:53-70 | A 19- or 20-unit name padded with one space each side shows no inline error, yet the gate stays closed. |
| OrderForm.PaddedAbQuirk | frontend/components/Form.js:53-70 | From the mounted form, choosing "M" and typing "  ab  " gives "full name must be at least 3 characters" inline while the order can be submitted. |
| OrderForm.EmptyEntryMessage | frontend/components/Form.js:13-23 | Emptying a field shows the message its own order picks: "full name must be at least 3 characters" or "size must be S or M or L" when the field's rule comes first, "Full name is required" or "Size is required" when `required` comes first. |
| OrderForm.MixedEmptyMessages | frontend/components/Form.js:13-23 | With the rule first for the name and `required` first for the size, clearing both fields from the mounted form shows the too-short message and the size-required message together. |

## Left out

- The `axios.post` call and its failure path (Form.js:92) are network I/O. The
  endpoint's response message is an input of `HandleSubmit` and of the `SubmitClicked`
  event. A failed request, which the code does not catch, is not modelled.
- The `catch` branch of `checkValidation` (Form.js:55-56) is not modelled. `isValid`
  reports invalid values as `false` rather than throwing, so the branch is not
  reachable from validation failures.
- React rendering, JSX and styling (Form.js:97-148) are not modelled. The model uses
  two facts from it: the submit control is disabled while `isDisabled` holds
  (Form.js:146), which `Step` models as a no-op click; and each box's checked state is
  derived from the selection (Form.js:136), which `Coherent` assumes.
- The window while the order request is in flight is not modelled. `Step` treats
  `handleSubmit`, including its `await axios.post` (Form.js:92-94), as one atomic step.
  In the code `isDisabled` stays false during the wait and the form stays editable. A
  second click therefore sends a second POST. Anything typed during the wait is wiped
  by `setFormValues(initialFormValues)` once the response arrives. The promise that a
  submit closes the gate at once (`Step`, `SubmitStepEffect`) holds only because the
  model makes the submit atomic.
- Values are modelled as well-formed UTF-16. Dafny's `string` is a sequence of Unicode
  scalar values, so a JavaScript string holding an unpaired surrogate is not
  represented. `length` counts such a surrogate as 1 and `trim` keeps it, and
  `Utf16Length` and `Trim` say nothing about such strings.
- `useState`/`useEffect` scheduling is not modelled. That includes the asynchronous
  `setErrors` calls, which can interleave and read a stale `errors`. Each handler is
  one atomic step, and a value change is followed at once by re-gating.
- Which failing test yup reports first on an empty value is library behaviour. It is
  a parameter with one order per field, not a fixed choice.
- yup's string tests are modelled only as far as this schema uses them. The values
  that reach the schema are always strings, so yup's type casting and its handling of
  `undefined` and `null` are not modelled.
- Routing and navigation (`App.js`, `frontend/components/App.js`,
  `frontend/components/Home.js`) and the static image are not part of this model;
  they hold no form logic.
