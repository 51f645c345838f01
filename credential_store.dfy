/** The credential record the page keeps in the browser's local storage:
    two fixed keys, the effect on the store of saving (including a write
    that throws), of clearing, and what loading finds. The store is a plain
    string-to-string map; a key that is absent is `getItem`'s `null`. */
module CredentialStore {

  const LoginKey := "webAppLab_login"
  const PasswordKey := "webAppLab_password"

  type Store = map<string, string>

  datatype Option<T> = None | Some(value: T)

  /** Which `setItem` call of a save throws because storage is full.
      Reads and removals are taken to succeed, as they do on a full store. */
  datatype WriteFault = NoFault | FirstWriteFails | SecondWriteFails

  /** `localStorage.getItem`. */
  function GetItem(store: Store, key: string): (v: Option<string>)
    ensures v.Some? <==> key in store
    ensures v.Some? ==> v.value == store[key]
  {
    if key in store then Some(store[key]) else None
  }

  /** JavaScript truthiness of a `getItem` result: `null` and the empty
      string are both false. */
  predicate Truthy(v: Option<string>) {
    v.Some? && v.value != ""
  }

  /** True when `k` is bound in `r` exactly as in `store`. */
  predicate SameAt(store: Store, r: Store, k: string) {
    (k in store <==> k in r) && (k in store ==> store[k] == r[k])
  }

  /** The store after `saveCredentials`: the login is written first and
      the password second; a throwing write aborts the rest, so a failing
      second write leaves the new login beside whatever password was there
      before. No other key is touched. */
  function Saved(store: Store, login: string, password: string, fault: WriteFault): (r: Store)
    ensures forall k :: k != LoginKey && k != PasswordKey ==> SameAt(store, r, k)
    ensures fault == FirstWriteFails ==> r == store
    ensures fault != FirstWriteFails ==> LoginKey in r && r[LoginKey] == login
    ensures fault == NoFault ==> PasswordKey in r && r[PasswordKey] == password
    ensures fault == SecondWriteFails ==> SameAt(store, r, PasswordKey)
  {
    match fault
    case FirstWriteFails => store
    case SecondWriteFails => store[LoginKey := login]
    case NoFault => store[LoginKey := login][PasswordKey := password]
  }

  /** The store after `clearLocalStorage`: both keys removed, every other
      key as it was. */
  function Cleared(store: Store): (r: Store)
    ensures LoginKey !in r && PasswordKey !in r
    ensures forall k :: k != LoginKey && k != PasswordKey ==> SameAt(store, r, k)
  {
    store - {LoginKey, PasswordKey}
  }

  /** What `loadSavedCredentials` finds: the stored pair when both values
      are truthy, nothing otherwise. */
  function Loaded(store: Store): (r: Option<(string, string)>)
    ensures r.Some? <==>
      (&& LoginKey in store && store[LoginKey] != ""
       && PasswordKey in store && store[PasswordKey] != "")
    ensures r.Some? ==> r.value == (store[LoginKey], store[PasswordKey])
  {
    var login := GetItem(store, LoginKey);
    var password := GetItem(store, PasswordKey);
    if Truthy(login) && Truthy(password) then Some((login.value, password.value)) else None
  }

  /** Round trip: a save in which no write fails is read back exactly, as
      long as neither value is empty. */
  lemma LoadAfterSave(store: Store, login: string, password: string)
    requires login != "" && password != ""
    ensures Loaded(Saved(store, login, password, NoFault)) == Some((login, password))
  {
  }

  /** An empty value is stored but, being falsy, is never loaded back. */
  lemma EmptyValueNotLoaded(store: Store, login: string, password: string)
    requires login == "" || password == ""
    ensures Loaded(Saved(store, login, password, NoFault)) == None
  {
  }

  /** A save whose first write fails changes nothing that loading sees. */
  lemma FirstWriteFailureLoadsOld(store: Store, login: string, password: string)
    ensures Loaded(Saved(store, login, password, FirstWriteFails)) == Loaded(store)
  {
  }

  /** A failing second write leaves a partial record: if an older password
      was stored, loading pairs the new login with that old password. */
  lemma PartialSaveMixesRecords(store: Store, login: string, password: string)
    requires login != ""
    requires PasswordKey in store && store[PasswordKey] != ""
    ensures Loaded(Saved(store, login, password, SecondWriteFails)) == Some((login, store[PasswordKey]))
  {
  }

  /** After clearing, loading finds nothing. */
  lemma LoadAfterClear(store: Store)
    ensures Loaded(Cleared(store)) == None
  {
  }

  /** Clearing twice is clearing once. */
  lemma ClearIdempotent(store: Store)
    ensures Cleared(Cleared(store)) == Cleared(store)
  {
  }

  /** Saving the same pair twice is saving it once. */
  lemma SaveIdempotent(store: Store, login: string, password: string)
    ensures Saved(Saved(store, login, password, NoFault), login, password, NoFault)
         == Saved(store, login, password, NoFault)
  {
  }

  /** Clearing after a save, whatever its outcome, leaves the same store as
      clearing alone: the record lives only under the two keys. */
  lemma ClearUndoesSave(store: Store, login: string, password: string, fault: WriteFault)
    ensures Cleared(Saved(store, login, password, fault)) == Cleared(store)
  {
  }
}
