# Lab page script, modelled in Dafny

`1lab/script.js` drives a one-page demo. It has three parts:

- a page-load notice;
- a counter with increment, decrement and reset buttons, redrawn after every click;
- a login form. The form accepts only `admin`/`admin`, shows a transient
  success or error message, keeps the submitted pair in `localStorage`
  under two fixed keys, and can reload, clear or forget that pair.

The model drops the browser. The module-level counter, the DOM properties
the handlers write and `localStorage` become fields of one object,
`LabScript.LabPage`. Each handler is a method on it that changes those
fields in place. Each method's `modifies` clause names exactly the fields
the handler writes, so "nothing else changes" comes from the frame.

Modules:

- `TextFormat` (`text_format.dfy`) covers the two JavaScript built-ins the
  script relies on:
  - `String.prototype.trim`, over ECMAScript's full WhiteSpace and
    LineTerminator set;
  - the integer-to-text conversion done by `counterElement.textContent = counter`.
- `Counter` (`counter.dfy`) holds the colour rule and the counter
  arithmetic, both for one click and folded over a sequence of clicks.
- `CredentialStore` (`credential_store.dfy`) holds the two storage keys
  and the store after a save, including a save whose first or second
  `setItem` throws. It also holds the store after a clear and what a load
  finds, using JavaScript truthiness.
- `LabScript` (`lab_page.dfy`) holds the `LabPage` class, one method per
  handler, and a client run of the whole page: submit, reload, clear,
  load again.

Two behaviours of the code are easy to miss:

- Loading treats an empty stored string like a missing key (`if (savedLogin && savedPassword)`).
  So a record saved with an empty value is never loaded back
  (`CredentialStore.EmptyValueNotLoaded`).
- The two keys are not always written together. If the second `setItem`
  throws, the new login is already stored. A later load then pairs it with
  whatever password was stored before (`CredentialStore.PartialSaveMixesRecords`).

## Model

| member | source | states |
|---|---|---|
| `TextFormat.IsWhitespace` | 1lab/script.js:192-193 | the code points `trim` strips: ECMAScript's WhiteSpace (TAB, VT, FF, SPACE, NO-BREAK SPACE, ZERO WIDTH NO-BREAK SPACE, the Zs space separators) and LineTerminator (LF, CR, LINE SEPARATOR, PARAGRAPH SEPARATOR) |
| `TextFormat.IsWhitespaceMatchesTable` | 1lab/script.js:192-193 | the disjunction agrees with the 25 code points listed one by one, and among ASCII characters holds exactly for TAB, LF, VT, FF, CR and SPACE |
| `TextFormat.LeadingWhitespace` | 1lab/script.js:192-193 | the count of leading whitespace characters: all of them are whitespace and the next character is not |
| `TextFormat.TrailingWhitespace` | 1lab/script.js:192-193 | the count of trailing whitespace characters: all of them are whitespace and the character before them is not |
| `TextFormat.Trim` | 1lab/script.js:192-193 | `trim` returns something no longer than its input that neither starts nor ends with whitespace |
| `TextFormat.TrimSplit` | 1lab/script.js:192-193 | every string is its trimmed value with only whitespace on either side |
| `TextFormat.TrimIsUnique` | 1lab/script.js:192-193 | any split into whitespace, a core with non-whitespace ends, and whitespace has that core as its trimmed value, so Trim is determined by these properties |
| `TextFormat.TrimIgnoresPadding` | 1lab/script.js:192-193 | adding whitespace on either side does not change the trimmed value |
| `TextFormat.TrimIdempotent` | 1lab/script.js:192-193 | trimming twice equals trimming once |
| `TextFormat.NatToDecimal` | 1lab/script.js:44 | a non-negative counter is shown as a non-empty run of digits with no leading zero, and "0" exactly for 0 |
| `TextFormat.IntToDecimal` | 1lab/script.js:44 | the counter text is a numeral that starts with '-' exactly when the counter is negative, in canonical form: "0" is the only text starting with '0', and no minus sign is followed by '0' |
| `TextFormat.NatToDecimalRoundTrip` | 1lab/script.js:44 | reading the digits back gives the non-negative value |
| `TextFormat.IntToDecimalRoundTrip` | 1lab/script.js:44 | reading the counter text back gives the counter |
| `TextFormat.IntToDecimalInjective` | 1lab/script.js:44 | different counter values are shown as different texts |
| `Counter.ColorFor` | 1lab/script.js:45 | the colour is `#e74c3c` exactly when the value is below zero and `#2c3e50` exactly when it is zero or more |
| `Counter.Step` | 1lab/script.js:53-72 | a reset gives 0; an increment or decrement moves the value by that click's signed step as `Net` counts it (`counter++` at line 53, `counter--` at 63, `counter = 0` at 72) |
| `Counter.Run` | 1lab/script.js:52-75 | the counter after a sequence of clicks, applied first to last |
| `Counter.RunLast` | 1lab/script.js:52-75 | the value after a non-empty sequence of clicks is its last click applied to the value after the others, so Run agrees with clicking one button at a time |
| `Counter.Net` | 1lab/script.js:53-63 | the definition of a click sequence's net step, increments minus decrements, which `RunWithoutReset` relates to the counter. Its contract only bounds it by the number of clicks |
| `Counter.RunWithoutReset` | 1lab/script.js:52-66 | a sequence of increments and decrements moves the counter by the algebraic sum of its +1 and -1 steps |
| `Counter.ResetForgetsHistory` | 1lab/script.js:71-75 | after a reset the counter depends only on the clicks that follow it, whatever came before |
| `Counter.FromZero` | 1lab/script.js:37-66 | from the initial 0, reset-free clicks leave the counter at their net sum, shown in the negative colour exactly when that sum is below zero |
| `CredentialStore.GetItem` | 1lab/script.js:153-154 | `getItem` yields a value exactly when the key is present, and that value is the stored one |
| `CredentialStore.Saved` | 1lab/script.js:137-147 | a save writes the login, then the password. A failing first write changes nothing, and a failing second write leaves the new login beside the old password entry. No other key changes |
| `CredentialStore.Cleared` | 1lab/script.js:179-181 | a clear removes both keys and leaves every other key as it was |
| `CredentialStore.Truthy` | 1lab/script.js:156 | JavaScript truthiness of a `getItem` result: `null` and the empty string are false |
| `CredentialStore.Loaded` | 1lab/script.js:152-158 | a load finds a pair exactly when both keys are present with non-empty values, and the pair it finds is the stored login and the stored password |
| `CredentialStore.LoadAfterSave` | 1lab/script.js:139-158 | round trip: a save with no failing write and non-empty values is loaded back exactly |
| `CredentialStore.EmptyValueNotLoaded` | 1lab/script.js:156 | a saved empty login or password is never loaded back |
| `CredentialStore.FirstWriteFailureLoadsOld` | 1lab/script.js:138-146 | a save whose first write throws leaves the load result as before |
| `CredentialStore.PartialSaveMixesRecords` | 1lab/script.js:139-140 | after a failing second write, a load pairs the new login with the previously stored password |
| `CredentialStore.LoadAfterClear` | 1lab/script.js:152-181 | after a clear, a load finds nothing |
| `CredentialStore.ClearIdempotent` | 1lab/script.js:180-181 | clearing twice leaves the same store as clearing once |
| `CredentialStore.SaveIdempotent` | 1lab/script.js:139-140 | saving the same pair twice leaves the same store as saving it once |
| `CredentialStore.ClearUndoesSave` | 1lab/script.js:137-184 | clearing after any save, failed or not, gives the same store as clearing alone |
| `LabScript.MessageClass` | 1lab/script.js:107 | a shown message's class always differs from the neutral `message` class |
| `LabScript.MessageClassInjective` | 1lab/script.js:105-107 | different message kinds give different classes, so success and error can be told apart |
| `LabScript.IsAdmin` | 1lab/script.js:123 | the accepted pair: login and password both exactly `admin`, case-sensitive |
| `LabScript.LabPage.constructor` | 1lab/script.js:7-37 | the script, started while the document is still loading, sets the counter to 0 and runs the page-load handler once on `DOMContentLoaded`, which sets the status text and loads any complete saved record into the form |
| `LabScript.LabPage.OnPageLoaded` | 1lab/script.js:7-18 | sets the ready status text, then behaves as LoadSavedCredentials |
| `LabScript.LabPage.UpdateCounterDisplay` | 1lab/script.js:43-46 | the counter element shows the counter's decimal text, in the negative colour exactly when the counter is below zero |
| `LabScript.LabPage.IncrementCounter` | 1lab/script.js:52-56 | adds exactly 1 and redraws. Only the counter and its display change |
| `LabScript.LabPage.DecrementCounter` | 1lab/script.js:62-66 | subtracts exactly 1 and redraws. Only the counter and its display change |
| `LabScript.LabPage.ResetCounter` | 1lab/script.js:71-75 | the counter becomes 0 from any value and is shown as "0" in the non-negative colour. Only the counter and its display change |
| `LabScript.LabPage.ShowMessage` | 1lab/script.js:105-113 | sets the text and the class `message <kind>` and schedules one auto-clear callback |
| `LabScript.LabPage.TimerFires` | 1lab/script.js:110-112 | a scheduled callback resets only the class to `message` and leaves the text. A second firing leaves the same visible state |
| `LabScript.LabPage.ValidateCredentials` | 1lab/script.js:121-130 | returns true exactly for `admin`/`admin` (case-sensitive, untrimmed). Shows the success message with class `message success` on true and the error message with `message error` on false |
| `LabScript.LabPage.SetItem` | 1lab/script.js:139-140 | a `setItem` either binds the key to the value or throws and leaves the store unchanged |
| `LabScript.LabPage.RemoveItem` | 1lab/script.js:180-181 | `removeItem` removes the key and nothing else |
| `LabScript.LabPage.SaveCredentials` | 1lab/script.js:137-147 | the store becomes `Saved(old store, ...)`. The message is the saved text with class `message success` when no write fails, and otherwise the failure text with `message error` |
| `LabScript.LabPage.LoadSavedCredentials` | 1lab/script.js:152-164 | with a complete record, both inputs get the stored values and a success message is shown. Otherwise the inputs, message text, message class and timers are left unchanged |
| `LabScript.LabPage.ClearForm` | 1lab/script.js:169-174 | both inputs become empty and the confirmation is shown with class `message success` |
| `LabScript.LabPage.ClearLocalStorage` | 1lab/script.js:179-184 | the store becomes `Cleared(old store)` and the confirmation is shown |
| `LabScript.LabPage.Submit` | 1lab/script.js:187-204 | the store changes only if the trimmed inputs validate. If they do, it becomes the save of the trimmed pair; if not, it is unchanged and the error message is shown. The inputs keep their untrimmed text |
| `LabScript.LabPage.SubmitTrimmed` | 1lab/script.js:195-203 | validation, then a save only when the pair validates, with the message each path leaves |
| `LabScript.PaddedAdminTrims` | 1lab/script.js:192 | `" admin "` trims to `admin` |
| `LabScript.AdminTrims` | 1lab/script.js:193 | `admin` trims to itself |
| `LabScript.Click` | 1lab/script.js:52-75 | one button click changes the counter by `Counter.Step` and leaves it displayed |
| `LabScript.ClickAll` | 1lab/script.js:43-75 | after any sequence of clicks the counter is `Counter.Run` of its start value and the clicks and the element shows it; with no reset it is the start plus the net sum |
| `LabScript.TypeAndSubmit` | 1lab/script.js:187-204 | submitting inputs that trim to the admin pair, with no failing write, stores exactly `admin`/`admin` |
| `LabScript.ReloadScenario` | 1lab/script.js:152-184 | a reload over a complete record fills the inputs with it. A later clear removes both keys, and the load after that leaves the inputs as they were |
| `LabScript.EndToEnd` | 1lab/script.js:137-204 | submit `" admin "`/`admin`, then reload, clear and load: storage holds `admin`/`admin`, the reload shows them, the clear removes both keys, and the last load leaves them in the form |

## Left out

- Element lookup and `addEventListener` registration (lines 8, 20-23, 29-32, 38, 77-92, 206-209) are browser plumbing.
- The `else` branch at lines 24-27 is not modelled: the constructor covers only a script started while the document is loading, with `onPageLoaded` run later on `DOMContentLoaded`. When the script starts after parsing has finished, `onPageLoaded` runs at once, during the script's own evaluation. It reaches `loadSavedCredentials` (line 17), which reads `STORAGE_KEYS` at line 153. That `const` is declared at line 95 and is not yet initialised, so the read throws a ReferenceError. The throw stops the script: `counter` is never initialised and no handler is registered. Reading a `const` before its declaration has run, in its temporal dead zone, throws.
- Every `console.log`/`console.error` line, and `showStorageStatus` (lines 216-222), which only logs.
- The status element's colour and font weight (lines 10-11). Only its text is modelled.
- The `module.exports` block (lines 225-233).
- The 5-second delay of `setTimeout`. Any scheduled callback may fire between any two handlers (`TimerFires`), but only after `showMessage` has scheduled it. Real time and the order among several timers are not modelled.
- `event.preventDefault()` (line 189) has no effect on the modelled state.
- The markup's initial values for the counter text and colour, the inputs and the message are constructor parameters. `form.reset()` is taken to restore empty inputs.
- The model uses unbounded integers for the counter. JavaScript numbers lose precision beyond 2^53 and print in exponent notation from 10^21. Within that range the rendering is exact.
- Storage reads and removals are taken never to throw; only `setItem` may fail, as on a full store. With storage disabled, the `localStorage` accesses at lines 153-154, 180-181 and 217 throw uncaught. `loadSavedCredentials`, `clearLocalStorage` and `showStorageStatus` then stop with no effect, so the page-load and clear handlers show no message.
- A Dafny `string` is a sequence of Unicode scalar values, while a JavaScript string is a sequence of UTF-16 code units. Lone surrogates cannot be represented, and characters outside the Basic Multilingual Plane count as one here but as two in JavaScript lengths.
- `TextFormat.Trim` uses the whitespace set of current Unicode (category Zs as of Unicode 15). Another engine's Unicode version could differ in that category.
