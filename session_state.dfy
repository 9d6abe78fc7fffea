/** The favourite-colour tools of the session-state experiment: one handler
    writes a user-scoped key of the session State, the other reads it back. */
module SessionState {
  import opened Wrappers

  /** A value held in the State: a string or some other dynamic value. */
  datatype Value = Str(s: string) | Int(i: int) | Bool(b: bool) | Nil

  /** How the store answers one `Set`: it stores the value, or refuses with an error. */
  datatype SetOutcome = Stored | Refused(reason: string)

  datatype SaveColorInput = SaveColorInput(color: string)
  datatype SaveColorOutput = SaveColorOutput(success: bool)
  datatype GetColorOutput = GetColorOutput(color: string)

  /** The scope prefix of user-level keys; its value belongs to the session
      library and nothing here depends on it. */
  const KeyPrefixUser: string

  /** The one key both handlers use. */
  const FavColorKey: string := KeyPrefixUser + "fav_color"

  const Unknown: string := "unknown"

  /** `State.Get`: the stored value, or None (the "key does not exist" error). */
  function Get(entries: map<string, Value>, key: string): (r: Option<Value>)
    ensures r.Some? <==> key in entries
    ensures r.Some? ==> r.value == entries[key]
  {
    if key in entries then Some(entries[key]) else None
  }

  /** Read over write: a lookup of the key just written yields the written
      value, and a lookup of any other key is unaffected by the write. */
  lemma GetAfterWrite(entries: map<string, Value>, written: string, v: Value, key: string)
    ensures Get(entries[written := v], key) == if key == written then Some(v) else Get(entries, key)
  {
  }

  /** The session State as the handlers see it: a map the store updates in place. */
  class State {
    var entries: map<string, Value>

    constructor (initial: map<string, Value>)
      ensures entries == initial
    {
      entries := initial;
    }

    /** `State.Set`: a refused write reports its error and leaves the map as it was. */
    method Set(key: string, value: Value, outcome: SetOutcome) returns (err: Option<string>)
      modifies this
      ensures err.None? <==> outcome.Stored?
      ensures outcome.Stored? ==> entries == old(entries)[key := value]
      ensures outcome.Refused? ==> entries == old(entries)
    {
      if outcome.Refused? {
        return Some(outcome.reason);
      }
      entries := entries[key := value];
      return None;
    }
  }

  /** saveColorHandler: write the colour under the user key; success reports
      whether the store accepted the write. No other key changes. */
  method SaveColor(st: State, input: SaveColorInput, outcome: SetOutcome) returns (output: SaveColorOutput)
    modifies st
    ensures output.success <==> outcome.Stored?
    ensures output.success ==> st.entries == old(st.entries)[FavColorKey := Str(input.color)]
    ensures !output.success ==> st.entries == old(st.entries)
    ensures forall k :: k != FavColorKey ==> Get(st.entries, k) == Get(old(st.entries), k)
  {
    var err := st.Set(FavColorKey, Str(input.color), outcome);
    if err.Some? {
      return SaveColorOutput(false);
    }
    return SaveColorOutput(true);
  }

  /** getColorHandler: the stored colour, or "unknown" when the key is missing
      or holds something that is not a string. */
  function GetColor(entries: map<string, Value>): (output: GetColorOutput)
    ensures FavColorKey !in entries ==> output.color == Unknown
    ensures FavColorKey in entries && !entries[FavColorKey].Str? ==> output.color == Unknown
    ensures FavColorKey in entries && entries[FavColorKey].Str? ==> output.color == entries[FavColorKey].s
  {
    match Get(entries, FavColorKey)
    case None => GetColorOutput(Unknown)
    case Some(v) => if v.Str? then GetColorOutput(v.s) else GetColorOutput(Unknown)
  }

  /** The colour read back depends on the user key alone. */
  lemma GetColorIgnoresOtherKeys(entries: map<string, Value>, key: string, v: Value)
    requires key != FavColorKey
    ensures GetColor(entries[key := v]) == GetColor(entries)
  {
  }

  /** Round trip on the map: writing colour c under the key and reading it
      back gives c, whatever the State held before. */
  lemma SaveThenGetColor(entries: map<string, Value>, c: string)
    ensures GetColor(entries[FavColorKey := Str(c)]).color == c
  {
  }

  /** Round trip through both handlers: a successful save of c makes the next
      get answer c; a refused save leaves the answer as it was. */
  method SaveThenGet(st: State, c: string, outcome: SetOutcome) returns (saved: SaveColorOutput, got: GetColorOutput)
    modifies st
    ensures saved.success ==> got.color == c
    ensures !saved.success ==> got == GetColor(old(st.entries))
  {
    saved := SaveColor(st, SaveColorInput(c), outcome);
    got := GetColor(st.entries);
    if saved.success {
      SaveThenGetColor(old(st.entries), c);
    }
  }
}
