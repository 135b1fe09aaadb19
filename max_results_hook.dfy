/** The `useMaxResults` hook (synaptic-learn/src/hooks/use-max-results.ts): a state
    cell read from `localStorage` on mount, an unchecked setter, and an effect that
    writes the value's string form back after every change. The stored string is
    used as it is (`as number` only tells the type checker), so a remounted hook
    holds a string until the setter is called. */
module MaxResultsHook {
  import opened Text
  import Browser

  /** The JavaScript values the state cell can hold: an integral number or a string. */
  datatype JsValue = Num(n: int) | Str(s: string)

  const MaxResultsKey := "maxResults"
  const DefaultMaxResults := 3

  /** `localStorage.getItem("maxResults") || 3`. */
  function InitialMaxResults(stored: Option<string>): (v: JsValue)
    ensures v.Num? <==> stored.None? || stored.value == []
    ensures v.Num? ==> v.n == DefaultMaxResults
    ensures v.Str? ==> v.s == stored.value && v.s != []
  {
    if stored.None? || stored.value == [] then Num(DefaultMaxResults) else Str(stored.value)
  }

  /** `value.toString()`. */
  function ToJsString(v: JsValue): string {
    match v
    case Num(n) => IntToString(n)
    case Str(s) => s
  }

  /** JavaScript's conversion to a number, as `-` and `*` apply it, for values that
      hold an integer; `None` stands for NaN. */
  function ToInteger(v: JsValue): Option<int> {
    match v
    case Num(n) => Some(n)
    case Str(s) => if s == [] then Some(0) else ParseInt(s)
  }

  /** What the effect stores for a number is read back on the next mount as a
      string, which converts back to the same number. */
  lemma StoredNumberReadsBack(n: int)
    ensures InitialMaxResults(Some(ToJsString(Num(n)))) == Str(IntToString(n))
    ensures ToInteger(InitialMaxResults(Some(ToJsString(Num(n))))) == Some(n)
  {
    assert IntToString(n) != [] by {
      if n < 0 { assert IntToString(n)[0] == '-'; } else { assert |Digits(n)| > 0; }
    }
    IntToStringRoundTrip(n);
  }

  /** A stored string is kept as it is, and written back unchanged. */
  lemma StoredStringKept(s: string)
    requires s != []
    ensures InitialMaxResults(Some(s)) == Str(s)
    ensures ToJsString(InitialMaxResults(Some(s))) == s
  {
  }

  class UseMaxResults {
    var maxResults: JsValue
    const storage: Browser.LocalStorage

    ghost predicate Synced()
      reads this, storage
    {
      MaxResultsKey in storage.items && storage.items[MaxResultsKey] == ToJsString(maxResults)
    }

    /** The first render: the state starts from storage. */
    constructor(storage: Browser.LocalStorage)
      ensures this.storage == storage
      ensures maxResults == InitialMaxResults(storage.GetItem(MaxResultsKey))
    {
      this.storage := storage;
      maxResults := InitialMaxResults(storage.GetItem(MaxResultsKey));
    }

    /** The effect on `[maxResults]`. */
    method Effect()
      modifies storage
      ensures storage.items == old(storage.items)[MaxResultsKey := ToJsString(maxResults)]
      ensures Synced()
    {
      storage.SetItem(MaxResultsKey, ToJsString(maxResults));
    }

    /** `setMaxResults`, which takes any value, followed by the effect. */
    method SetMaxResults(value: JsValue)
      modifies this, storage
      ensures maxResults == value
      ensures storage.items == old(storage.items)[MaxResultsKey := ToJsString(value)]
      ensures Synced()
    {
      maxResults := value;
      Effect();
    }
  }

  /** Mounting leaves a non-empty stored entry as it was and stores "3" otherwise. */
  method Mount(storage: Browser.LocalStorage) returns (hook: UseMaxResults)
    modifies storage
    ensures fresh(hook) && hook.storage == storage && hook.Synced()
    ensures MaxResultsKey in old(storage.items) && old(storage.items)[MaxResultsKey] != [] ==>
      storage.items == old(storage.items)
    ensures MaxResultsKey !in old(storage.items) || old(storage.items)[MaxResultsKey] == [] ==>
      storage.items == old(storage.items)[MaxResultsKey := "3"]
  {
    hook := new UseMaxResults(storage);
    hook.Effect();
  }
}
