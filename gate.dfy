/**
 * The password gate of components/PasswordGate.tsx: a widget that shows its
 * children only once the visitor has typed the shared passphrase, and that
 * remembers a successful unlock in the browser's key-value store.
 *
 * The step functions on `GateState` specify each event; the class
 * `PasswordGate` holds the three React state cells and its methods are proved
 * to perform exactly those steps on them and on a shared `LocalStorage`.
 */
module Gate {
  import opened Wrappers

  /** The passphrase compared against, verbatim (case-sensitive, not trimmed). */
  const CorrectPassword: string := "ai888vip"

  /** The single key under which an unlock is remembered. */
  const StorageKey: string := "aippt_vip_access"

  /** The value written under `StorageKey` on unlock and expected at mount. */
  const UnlockedFlag: string := "true"

  type Store = map<string, string>

  /** The three state cells of the component. */
  datatype GateState = GateState(input: string, isUnlocked: bool, error: bool)

  /** The state every instance starts in, before the store has been read. */
  const Initial: GateState := GateState("", false, false)

  /** What the component renders: exactly its children, or the challenge form
      (the password field showing `input`, and the error line when `showError`). */
  datatype View<C> = Children(content: C) | Challenge(input: string, showError: bool)

  /** The user events an instance receives after it has mounted. */
  datatype Event = Type(value: string) | Submit

  function Lookup(store: Store, key: string): (r: Option<string>)
    ensures r.Some? <==> key in store
    ensures r.Some? ==> r.value == store[key]
  {
    if key in store then Some(store[key]) else None
  }

  /** True when the store remembers an earlier unlock. */
  predicate Remembered(store: Store)
  {
    Lookup(store, StorageKey) == Some(UnlockedFlag)
  }

  // ---------------------------------------------------------------------------
  // One step per event

  /** The mount effect: unlock when the stored flag is exactly "true"; otherwise
      leave the state as it is. The store is only read. */
  function Mounted(st: GateState, store: Store): GateState
  {
    if Remembered(store) then st.(isUnlocked := true) else st
  }

  /** The input's change handler: the field takes the typed value. */
  function Typed(st: GateState, value: string): GateState
  {
    st.(input := value)
  }

  /** The submit handler: on an exact match unlock, persist the flag and clear
      the error; otherwise raise the error and empty the field. */
  function Submitted(st: GateState, store: Store): (GateState, Store)
  {
    if st.input == CorrectPassword then
      (st.(isUnlocked := true, error := false), store[StorageKey := UnlockedFlag])
    else
      (st.(error := true, input := ""), store)
  }

  function Step(st: GateState, store: Store, e: Event): (GateState, Store)
  {
    match e
    case Type(v) => (Typed(st, v), store)
    case Submit => Submitted(st, store)
  }

  /** The state and store after the events `es`, in order. */
  function Run(st: GateState, store: Store, es: seq<Event>): (GateState, Store)
    decreases |es|
  {
    if es == [] then (st, store)
    else
      var next := Step(st, store, es[0]);
      Run(next.0, next.1, es[1..])
  }

  /** One lifetime of an instance: created, mounted against `store`, then `es`. */
  function Session(store: Store, es: seq<Event>): (GateState, Store)
  {
    Run(Mounted(Initial, store), store, es)
  }

  /** The observation: children exactly when unlocked, the challenge otherwise. */
  function Render<C>(st: GateState, children: C): (v: View<C>)
    ensures st.isUnlocked ==> v == Children(children)
    ensures !st.isUnlocked ==> v.Challenge? && v.input == st.input
    ensures v.Challenge? ==> (v.showError <==> st.error)
  {
    if st.isUnlocked then Children(children) else Challenge(st.input, st.error)
  }

  // ---------------------------------------------------------------------------
  // Properties of single steps

  /** A fresh instance shows the empty form, with no error, whatever it wraps. */
  lemma InitialShowsChallenge<C>(children: C)
    ensures Initial.input == "" && !Initial.isUnlocked && !Initial.error
    ensures Render(Initial, children) == Challenge("", false)
  {
  }

  /** Mount unlocks iff the store holds exactly "true" under the key, and
      touches nothing else. */
  lemma MountReadsFlag(st: GateState, store: Store)
    ensures Mounted(st, store).isUnlocked <==> st.isUnlocked || Remembered(store)
    ensures Mounted(st, store).input == st.input
    ensures Mounted(st, store).error == st.error
  {
  }

  /** A matching submission unlocks, persists the flag and clears the error. */
  lemma CorrectSubmitUnlocks(st: GateState, store: Store)
    requires st.input == CorrectPassword
    ensures Submitted(st, store).0.isUnlocked
    ensures !Submitted(st, store).0.error
    ensures Submitted(st, store).1 == store[StorageKey := UnlockedFlag]
    ensures Remembered(Submitted(st, store).1)
    ensures Submitted(st, store) == (st.(isUnlocked := true, error := false), store[StorageKey := UnlockedFlag])
  {
  }

  /** Any other submission shows the error, empties the field and changes
      neither the lock nor the store. */
  lemma WrongSubmitRejected(st: GateState, store: Store)
    requires st.input != CorrectPassword
    ensures Submitted(st, store) == (GateState("", st.isUnlocked, true), store)
  {
  }

  /** The passphrase with a trailing space is a mismatch, as is its upper-case form. */
  lemma NearMissesRejected(store: Store)
    ensures !Submitted(Typed(Initial, "ai888vip "), store).0.isUnlocked
    ensures !Submitted(Typed(Initial, "AI888VIP"), store).0.isUnlocked
    ensures Submitted(Typed(Initial, "ai888vip"), store).0.isUnlocked
  {
    assert "ai888vip " != CorrectPassword by { assert |"ai888vip "| != |CorrectPassword|; }
    assert "AI888VIP" != CorrectPassword by { assert "AI888VIP"[0] != CorrectPassword[0]; }
  }

  // ---------------------------------------------------------------------------
  // Properties of whole runs

  /** No event relocks: once unlocked, unlocked after any events. */
  lemma {:induction false} UnlockMonotone(st: GateState, store: Store, es: seq<Event>)
    requires st.isUnlocked
    ensures Run(st, store, es).0.isUnlocked
    decreases |es|
  {
    if es != [] {
      var next := Step(st, store, es[0]);
      UnlockMonotone(next.0, next.1, es[1..]);
    }
  }

  /** The store is either untouched or gained exactly `StorageKey := "true"`:
      no other key and no other value is ever written. */
  lemma {:induction false} OnlyFlagWritten(st: GateState, store: Store, es: seq<Event>)
    ensures Run(st, store, es).1 == store || Run(st, store, es).1 == store[StorageKey := UnlockedFlag]
    decreases |es|
  {
    if es != [] {
      var next := Step(st, store, es[0]);
      OnlyFlagWritten(next.0, next.1, es[1..]);
      if next.1 != store {
        assert next.1 == store[StorageKey := UnlockedFlag];
        assert next.1[StorageKey := UnlockedFlag] == next.1;
      }
    }
  }

  /** When only this instance writes the store, an unlocked state is always
      backed by the stored flag. */
  lemma {:induction false} UnlockPersisted(st: GateState, store: Store, es: seq<Event>)
    requires st.isUnlocked ==> Remembered(store)
    ensures Run(st, store, es).0.isUnlocked ==> Remembered(Run(st, store, es).1)
    decreases |es|
  {
    if es != [] {
      var next := Step(st, store, es[0]);
      UnlockPersisted(next.0, next.1, es[1..]);
    }
  }

  /** The events contain a submission made while the field held the
      passphrase; `input` is the field's content before the first event. */
  predicate SubmitsPassword(input: string, es: seq<Event>)
    decreases |es|
  {
    es != [] &&
    match es[0]
    case Type(v) => SubmitsPassword(v, es[1..])
    case Submit => input == CorrectPassword || SubmitsPassword("", es[1..])
  }

  /** A run ends unlocked exactly when it started unlocked or the passphrase
      was submitted along the way. */
  lemma {:induction false} UnlockedIff(st: GateState, store: Store, es: seq<Event>)
    ensures Run(st, store, es).0.isUnlocked <==> st.isUnlocked || SubmitsPassword(st.input, es)
    decreases |es|
  {
    if es != [] {
      var next := Step(st, store, es[0]);
      UnlockedIff(next.0, next.1, es[1..]);
      match es[0]
      case Type(v) =>
      case Submit =>
        if st.input == CorrectPassword {
          UnlockMonotone(next.0, next.1, es[1..]);
        }
    }
  }

  /** A lifetime ends unlocked exactly when the store already remembered an
      unlock or the passphrase was submitted during it. */
  lemma SessionUnlockedIff(store: Store, es: seq<Event>)
    ensures Session(store, es).0.isUnlocked <==> Remembered(store) || SubmitsPassword("", es)
  {
    UnlockedIff(Mounted(Initial, store), store, es);
  }

  /** An unlock survives a reload: a later instance mounted against the store a
      session left behind starts unlocked and stays so whatever it receives. */
  lemma ReloadStaysUnlocked(store: Store, es: seq<Event>, later: seq<Event>)
    requires Session(store, es).0.isUnlocked
    ensures Mounted(Initial, Session(store, es).1).isUnlocked
    ensures Session(Session(store, es).1, later).0.isUnlocked
  {
    var m := Mounted(Initial, store);
    UnlockPersisted(m, store, es);
    var after := Session(store, es).1;
    UnlockMonotone(Mounted(Initial, after), after, later);
  }

  /** While locked, whatever the events so far, the rendering is the challenge
      form and carries no trace of the children. */
  lemma {:induction false} ChildrenHiddenUntilUnlocked<C>(store: Store, es: seq<Event>, children: C)
    requires !Remembered(store) && !SubmitsPassword("", es)
    ensures Render(Session(store, es).0, children).Challenge?
  {
    SessionUnlockedIff(store, es);
  }

  // ---------------------------------------------------------------------------
  // The imperative component

  /** The browser's `localStorage`: one map shared by every instance. */
  class LocalStorage {
    var items: Store

    constructor (initial: Store)
      ensures items == initial
    {
      items := initial;
    }

    method GetItem(key: string) returns (r: Option<string>)
      ensures r == Lookup(items, key)
    {
      if key in items {
        r := Some(items[key]);
      } else {
        r := None;
      }
    }

    method SetItem(key: string, value: string)
      modifies this
      ensures items == old(items)[key := value]
    {
      items := items[key := value];
    }
  }

  /** One mounted instance of the component, with its three state cells. */
  class PasswordGate {
    var input: string
    var isUnlocked: bool
    var error: bool

    function State(): GateState
      reads this
    {
      GateState(input, isUnlocked, error)
    }

    constructor ()
      ensures State() == Initial
    {
      input := "";
      isUnlocked := false;
      error := false;
    }

    /** The effect run once on mount: reads the store and never writes it. */
    method Mount(storage: LocalStorage)
      modifies this
      ensures State() == Mounted(old(State()), storage.items)
    {
      var hasAccess := storage.GetItem(StorageKey);
      if hasAccess == Some(UnlockedFlag) {
        isUnlocked := true;
      }
    }

    /** The password field's change handler. */
    method OnChange(value: string)
      modifies this
      ensures State() == Typed(old(State()), value)
    {
      input := value;
    }

    method HandleSubmit(storage: LocalStorage)
      modifies this, storage
      ensures (State(), storage.items) == Submitted(old(State()), old(storage.items))
    {
      if input == CorrectPassword {
        isUnlocked := true;
        storage.SetItem(StorageKey, UnlockedFlag);
        error := false;
      } else {
        error := true;
        input := "";
      }
    }

    /** Dispatches one user event to its handler. */
    method Handle(e: Event, storage: LocalStorage)
      modifies this, storage
      ensures (State(), storage.items) == Step(old(State()), old(storage.items), e)
    {
      match e
      case Type(v) => OnChange(v);
      case Submit => HandleSubmit(storage);
    }

    /** The component's render: the children once unlocked, else the form. */
    method Show<C>(children: C) returns (v: View<C>)
      ensures v == Render(State(), children)
    {
      if isUnlocked {
        v := Children(children);
      } else {
        v := Challenge(input, error);
      }
    }
  }

  /** A whole lifetime driven through the class: create, mount, handle `es`;
      the resulting cells and store are those `Session` specifies. */
  method Live(storage: LocalStorage, es: seq<Event>) returns (g: PasswordGate)
    modifies storage
    ensures fresh(g)
    ensures (g.State(), storage.items) == Session(old(storage.items), es)
  {
    g := new PasswordGate();
    g.Mount(storage);
    var i := 0;
    while i < |es|
      invariant 0 <= i <= |es|
      invariant Run(g.State(), storage.items, es[i..]) == Session(old(storage.items), es)
    {
      assert es[i..][1..] == es[i + 1..];
      g.Handle(es[i], storage);
      i := i + 1;
    }
  }
}
