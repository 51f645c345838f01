/** The page script of the first lab (1lab/script.js) with the browser
    abstracted away: the module-level counter, the DOM properties the
    handlers write (text, class, colour, input values) and `localStorage`
    become fields of one `LabPage` object, and every handler becomes a
    method that updates those fields in place. */
module LabScript {
  import opened TextFormat
  import Counter
  import opened CredentialStore

  /** The one accepted credential pair. */
  const AdminLogin := "admin"
  const AdminPassword := "admin"

  /** Texts the page writes. */
  const ReadyStatus := "Страница полностью загружена!"
  const AuthSuccessText := "Успешная аутентификация! Добро пожаловать, администратор."
  const AuthErrorText := "Ошибка аутентификации. Неверный логин или пароль."
  const SavedText := "Данные сохранены для будущих сессий."
  const SaveErrorText := "Ошибка при сохранении данных."
  const LoadedText := "Сохраненные данные загружены в форму."
  const FormClearedText := "Форма очищена."
  const StorageClearedText := "Сохраненные данные удалены из хранилища."

  /** Message kinds and the neutral class the auto-clear timer restores. */
  const Success := "success"
  const Error := "error"
  const NeutralClass := "message"

  /** The class `showMessage` gives the message element for a kind. */
  function MessageClass(kind: string): (cls: string)
    ensures cls != NeutralClass
  {
    NeutralClass + " " + kind
  }

  /** Different kinds give different classes, so the success and error
      styles can be told apart. */
  lemma MessageClassInjective(kind1: string, kind2: string)
    requires MessageClass(kind1) == MessageClass(kind2)
    ensures kind1 == kind2
  {
    var prefix := |NeutralClass| + 1;
    assert kind1 == MessageClass(kind1)[prefix..];
    assert kind2 == MessageClass(kind2)[prefix..];
  }

  /** The check `validateCredentials` makes: exact, case-sensitive equality
      with the accepted pair, no trimming. */
  predicate IsAdmin(login: string, password: string) {
    login == AdminLogin && password == AdminPassword
  }

  class LabPage {
    /** The module-level `let counter`. */
    var counter: int
    /** `textContent` and `style.color` of the counter element. */
    var counterText: string
    var counterColor: string
    /** `localStorage`. */
    var store: Store
    /** `value` of the login and password inputs. */
    var loginInput: string
    var passwordInput: string
    /** `textContent` and `className` of the message element. */
    var messageText: string
    var messageClass: string
    /** Auto-clear callbacks scheduled by `showMessage` that have not fired. */
    var pendingTimers: nat
    /** `textContent` of the load-status element. */
    var statusText: string

    /** The counter element shows the counter: its decimal text, in the
        colour for its sign. */
    ghost predicate CounterShown()
      reads this
    {
      counterText == IntToDecimal(counter) && counterColor == Counter.ColorFor(counter)
    }

    /** Running the script while the document is still loading: the
        counter starts at 0, the page-load handler runs once on
        `DOMContentLoaded`, and the elements otherwise keep the values the
        markup gave them. */
    constructor (saved: Store, counterText0: string, counterColor0: string,
                 login0: string, password0: string, messageText0: string, messageClass0: string)
      ensures counter == 0 && counterText == counterText0 && counterColor == counterColor0
      ensures store == saved && statusText == ReadyStatus
      ensures Loaded(saved).None? ==>
        && loginInput == login0 && passwordInput == password0
        && messageText == messageText0 && messageClass == messageClass0 && pendingTimers == 0
      ensures Loaded(saved).Some? ==>
        && (loginInput, passwordInput) == Loaded(saved).value
        && messageText == LoadedText && messageClass == MessageClass(Success) && pendingTimers == 1
    {
      counter := 0;
      counterText, counterColor := counterText0, counterColor0;
      store := saved;
      loginInput, passwordInput := login0, password0;
      messageText, messageClass := messageText0, messageClass0;
      pendingTimers := 0;
      statusText := "";
      new;
      OnPageLoaded();
    }

    /** `onPageLoaded`: set the status text, then try to load saved
        credentials. */
    method OnPageLoaded()
      modifies this`statusText, this`loginInput, this`passwordInput
      modifies this`messageText, this`messageClass, this`pendingTimers
      ensures statusText == ReadyStatus
      ensures Loaded(store).None? ==>
        && loginInput == old(loginInput) && passwordInput == old(passwordInput)
        && messageText == old(messageText) && messageClass == old(messageClass)
        && pendingTimers == old(pendingTimers)
      ensures Loaded(store).Some? ==>
        && (loginInput, passwordInput) == Loaded(store).value
        && messageText == LoadedText && messageClass == MessageClass(Success)
        && pendingTimers == old(pendingTimers) + 1
    {
      statusText := ReadyStatus;
      LoadSavedCredentials();
    }

    /** `updateCounterDisplay`: render the counter and colour it by sign. */
    method UpdateCounterDisplay()
      modifies this`counterText, this`counterColor
      ensures CounterShown()
      ensures counterColor == Counter.NegativeColor <==> counter < 0
    {
      counterText := IntToDecimal(counter);
      counterColor := Counter.ColorFor(counter);
    }

    /** `incrementCounter`. */
    method IncrementCounter()
      modifies this`counter, this`counterText, this`counterColor
      ensures counter == old(counter) + 1 == Counter.Step(old(counter), Counter.Increment)
      ensures CounterShown()
    {
      counter := counter + 1;
      UpdateCounterDisplay();
    }

    /** `decrementCounter`. */
    method DecrementCounter()
      modifies this`counter, this`counterText, this`counterColor
      ensures counter == old(counter) - 1 == Counter.Step(old(counter), Counter.Decrement)
      ensures CounterShown()
    {
      counter := counter - 1;
      UpdateCounterDisplay();
    }

    /** `resetCounter`. */
    method ResetCounter()
      modifies this`counter, this`counterText, this`counterColor
      ensures counter == 0 == Counter.Step(old(counter), Counter.Reset)
      ensures CounterShown() && counterText == "0" && counterColor == Counter.NonNegativeColor
    {
      counter := 0;
      UpdateCounterDisplay();
    }

    /** `showMessage`: set the text and the kind's class, and schedule one
        auto-clear callback. */
    method ShowMessage(text: string, kind: string)
      modifies this`messageText, this`messageClass, this`pendingTimers
      ensures messageText == text && messageClass == MessageClass(kind)
      ensures pendingTimers == old(pendingTimers) + 1
    {
      messageText := text;
      messageClass := MessageClass(kind);
      pendingTimers := pendingTimers + 1;
    }

    /** One scheduled auto-clear callback runs: the class goes back to the
        neutral one and the text stays. Any pending callback may fire at
        any point between handlers; firing again changes nothing visible. */
    method TimerFires()
      requires pendingTimers > 0
      modifies this`messageClass, this`pendingTimers
      ensures messageClass == NeutralClass
      ensures pendingTimers == old(pendingTimers) - 1
    {
      messageClass := NeutralClass;
      pendingTimers := pendingTimers - 1;
    }

    /** `validateCredentials`: accept exactly the admin pair and say so. */
    method ValidateCredentials(login: string, password: string) returns (ok: bool)
      modifies this`messageText, this`messageClass, this`pendingTimers
      ensures ok <==> IsAdmin(login, password)
      ensures messageText == (if ok then AuthSuccessText else AuthErrorText)
      ensures messageClass == MessageClass(if ok then Success else Error)
      ensures pendingTimers == old(pendingTimers) + 1
    {
      if IsAdmin(login, password) {
        ShowMessage(AuthSuccessText, Success);
        ok := true;
      } else {
        ShowMessage(AuthErrorText, Error);
        ok := false;
      }
    }

    /** `localStorage.setItem`, which may throw instead of writing. */
    method SetItem(key: string, value: string, throws: bool) returns (written: bool)
      modifies this`store
      ensures written == !throws
      ensures store == if throws then old(store) else old(store)[key := value]
    {
      if !throws {
        store := store[key := value];
      }
      written := !throws;
    }

    /** `localStorage.removeItem`, taken to succeed (storage enabled); a
        no-op for an absent key. */
    method RemoveItem(key: string)
      modifies this`store
      ensures key !in store
      ensures store == old(store) - {key}
    {
      store := store - {key};
    }

    /** `saveCredentials`: write the login, then the password; the first
        write that throws skips the rest and an error message is shown. */
    method SaveCredentials(login: string, password: string, fault: WriteFault)
      modifies this`store, this`messageText, this`messageClass, this`pendingTimers
      ensures store == Saved(old(store), login, password, fault)
      ensures messageText == (if fault == NoFault then SavedText else SaveErrorText)
      ensures messageClass == MessageClass(if fault == NoFault then Success else Error)
      ensures pendingTimers == old(pendingTimers) + 1
    {
      var ok := SetItem(LoginKey, login, fault == FirstWriteFails);
      if ok {
        ok := SetItem(PasswordKey, password, fault == SecondWriteFails);
      }
      if ok {
        ShowMessage(SavedText, Success);
      } else {
        ShowMessage(SaveErrorText, Error);
      }
    }

    /** `loadSavedCredentials`: copy both stored values into the inputs
        when both are truthy; otherwise leave the page as it is. */
    method LoadSavedCredentials()
      modifies this`loginInput, this`passwordInput
      modifies this`messageText, this`messageClass, this`pendingTimers
      ensures Loaded(store).None? ==>
        && loginInput == old(loginInput) && passwordInput == old(passwordInput)
        && messageText == old(messageText) && messageClass == old(messageClass)
        && pendingTimers == old(pendingTimers)
      ensures Loaded(store).Some? ==>
        && (loginInput, passwordInput) == Loaded(store).value
        && messageText == LoadedText && messageClass == MessageClass(Success)
        && pendingTimers == old(pendingTimers) + 1
    {
      var savedLogin := GetItem(store, LoginKey);
      var savedPassword := GetItem(store, PasswordKey);
      if Truthy(savedLogin) && Truthy(savedPassword) {
        loginInput := savedLogin.value;
        passwordInput := savedPassword.value;
        ShowMessage(LoadedText, Success);
      }
    }

    /** `clearForm`: reset the inputs to their (empty) defaults, drop the
        message kind, then confirm with a success message. */
    method ClearForm()
      modifies this`loginInput, this`passwordInput
      modifies this`messageText, this`messageClass, this`pendingTimers
      ensures loginInput == "" && passwordInput == ""
      ensures messageText == FormClearedText && messageClass == MessageClass(Success)
      ensures pendingTimers == old(pendingTimers) + 1
    {
      loginInput, passwordInput := "", "";
      messageClass := NeutralClass;
      ShowMessage(FormClearedText, Success);
    }

    /** `clearLocalStorage`: remove both keys and confirm. */
    method ClearLocalStorage()
      modifies this`store, this`messageText, this`messageClass, this`pendingTimers
      ensures store == Cleared(old(store))
      ensures messageText == StorageClearedText && messageClass == MessageClass(Success)
      ensures pendingTimers == old(pendingTimers) + 1
    {
      RemoveItem(LoginKey);
      RemoveItem(PasswordKey);
      ShowMessage(StorageClearedText, Success);
    }

    /** The form's submit handler: trim both inputs, then validate and
        save them (SubmitTrimmed). The inputs themselves keep their untrimmed
        values. */
    method Submit(fault: WriteFault)
      modifies this`store, this`messageText, this`messageClass, this`pendingTimers
      ensures store != old(store) ==> IsAdmin(Trim(loginInput), Trim(passwordInput))
      ensures IsAdmin(Trim(loginInput), Trim(passwordInput)) ==>
        store == Saved(old(store), Trim(loginInput), Trim(passwordInput), fault)
      ensures IsAdmin(Trim(loginInput), Trim(passwordInput)) ==>
        && messageText == (if fault == NoFault then SavedText else SaveErrorText)
        && messageClass == MessageClass(if fault == NoFault then Success else Error)
        && pendingTimers == old(pendingTimers) + 2
      ensures !IsAdmin(Trim(loginInput), Trim(passwordInput)) ==>
        && store == old(store)
        && messageText == AuthErrorText && messageClass == MessageClass(Error)
        && pendingTimers == old(pendingTimers) + 1
    {
      var login := Trim(loginInput);
      var password := Trim(passwordInput);
      SubmitTrimmed(login, password, fault);
    }

    /** The rest of the submit handler once the inputs are trimmed:
        validate, and save only a pair that validates. */
    method SubmitTrimmed(login: string, password: string, fault: WriteFault)
      modifies this`store, this`messageText, this`messageClass, this`pendingTimers
      ensures store != old(store) ==> IsAdmin(login, password)
      ensures IsAdmin(login, password) ==> store == Saved(old(store), login, password, fault)
      ensures IsAdmin(login, password) ==>
        && messageText == (if fault == NoFault then SavedText else SaveErrorText)
        && messageClass == MessageClass(if fault == NoFault then Success else Error)
        && pendingTimers == old(pendingTimers) + 2
      ensures !IsAdmin(login, password) ==>
        && store == old(store)
        && messageText == AuthErrorText && messageClass == MessageClass(Error)
        && pendingTimers == old(pendingTimers) + 1
    {
      var isValid := ValidateCredentials(login, password);
      if isValid {
        SaveCredentials(login, password, fault);
      }
    }
  }

  /** The admin name, typed with a space on either side, trims to itself. */
  lemma PaddedAdminTrims(typed: string)
    requires typed == " " + AdminLogin + " "
    ensures Trim(typed) == AdminLogin
  {
    TrimIsUnique(typed, " ", AdminLogin, " ");
  }

  /** The admin name typed without padding trims to itself. */
  lemma AdminTrims(typed: string)
    requires typed == AdminLogin
    ensures Trim(typed) == AdminLogin
  {
    assert typed == [] + AdminLogin + [];
    TrimIsUnique(typed, [], AdminLogin, []);
  }

  /** One click on one of the three counter buttons. */
  method Click(page: LabPage, click: Counter.Click)
    modifies page`counter, page`counterText, page`counterColor
    ensures page.counter == Counter.Step(old(page.counter), click)
    ensures page.CounterShown()
  {
    match click {
      case Increment => page.IncrementCounter();
      case Decrement => page.DecrementCounter();
      case Reset => page.ResetCounter();
    }
  }

  /** The user clicks the counter buttons in order: after each click the
      counter is Counter.Run of the clicks so far and the element shows it.
      With no reset among them, it ends at the start value plus their net
      sum (Counter.RunWithoutReset). */
  method ClickAll(page: LabPage, clicks: seq<Counter.Click>)
    modifies page`counter, page`counterText, page`counterColor
    ensures page.counter == Counter.Run(old(page.counter), clicks)
    ensures clicks != [] ==> page.CounterShown()
    ensures Counter.Reset !in clicks ==> page.counter == old(page.counter) + Counter.Net(clicks)
  {
    var start := page.counter;
    var i := 0;
    while i < |clicks|
      invariant 0 <= i <= |clicks|
      invariant page.counter == Counter.Run(start, clicks[..i])
      invariant i > 0 ==> page.CounterShown()
    {
      Click(page, clicks[i]);
      assert clicks[..i + 1][..i] == clicks[..i];
      Counter.RunLast(start, clicks[..i + 1]);
      i := i + 1;
    }
    assert clicks[..i] == clicks;
    if Counter.Reset !in clicks {
      Counter.RunWithoutReset(start, clicks);
    }
  }

  /** The user types a login and a password that trim to the admin pair
      and submits, with no storage failure: the admin pair is stored. */
  method TypeAndSubmit(page: LabPage, typedLogin: string, typedPassword: string)
    requires Trim(typedLogin) == AdminLogin && Trim(typedPassword) == AdminPassword
    modifies page
    ensures page.store == Saved(old(page.store), AdminLogin, AdminPassword, NoFault)
  {
    page.loginInput, page.passwordInput := typedLogin, typedPassword;
    page.Submit(NoFault);
    assert IsAdmin(Trim(page.loginInput), Trim(page.passwordInput));
  }

  /** The reload half of the end-to-end run: the page is loaded over a
      store, the store is cleared, and saved credentials are loaded again.
      The reload fills the inputs from a complete record; the later load
      finds nothing and leaves them as they were. */
  method ReloadScenario(stored: Store) returns (reloaded: (string, string), afterClear: Store,
                                                finalInputs: (string, string))
    ensures Loaded(stored).Some? ==> reloaded == Loaded(stored).value
    ensures afterClear == Cleared(stored)
    ensures finalInputs == reloaded
  {
    var page := new LabPage(stored, "0", Counter.NonNegativeColor, "", "", "", NeutralClass);
    reloaded := (page.loginInput, page.passwordInput);
    page.ClearLocalStorage();
    afterClear := page.store;
    LoadAfterClear(stored);
    page.LoadSavedCredentials();
    finalInputs := (page.loginInput, page.passwordInput);
  }

  /** The whole run: submit " admin " / "admin", reload, clear, load. */
  method EndToEnd(saved: Store) returns (afterSubmit: Store, reloaded: (string, string),
                                          afterClear: Store, finalInputs: (string, string))
    ensures LoginKey in afterSubmit && afterSubmit[LoginKey] == "admin"
    ensures PasswordKey in afterSubmit && afterSubmit[PasswordKey] == "admin"
    ensures reloaded == ("admin", "admin")
    ensures LoginKey !in afterClear && PasswordKey !in afterClear
    ensures finalInputs == reloaded
  {
    var typedLogin := " " + AdminLogin + " ";
    PaddedAdminTrims(typedLogin);
    AdminTrims(AdminPassword);
    var page := new LabPage(saved, "0", Counter.NonNegativeColor, "", "", "", NeutralClass);
    TypeAndSubmit(page, typedLogin, AdminPassword);
    afterSubmit := page.store;
    LoadAfterSave(saved, AdminLogin, AdminPassword);
    reloaded, afterClear, finalInputs := ReloadScenario(afterSubmit);
  }
}
