/** The JavaScript values the handlers and the client inspect: numbers, parsed
    JSON, truthiness, property lookup, and `Number(string)` for integers. */
module JsValues {
  import opened Wrappers
  import opened Text

  /** A JavaScript number. Finite numbers are modelled by their integer value;
      the three non-finite values are kept apart because their truthiness differs. */
  datatype JsNumber = Finite(value: int) | NaN | PosInfinity | NegInfinity

  /** `Number.isFinite`. */
  predicate IsFinite(n: JsNumber) {
    n.Finite?
  }

  /** A value produced by `JSON.parse` (or received as an axios response body).
      An object keeps its members in source order; duplicate keys are allowed
      and the last one wins, as with `JSON.parse`. */
  datatype Json =
    | JNull
    | JBool(b: bool)
    | JNumber(n: JsNumber)
    | JString(s: string)
    | JArray(items: seq<Json>)
    | JObject(members: seq<(string, Json)>)

  /** JavaScript truthiness of a value that may be `undefined` (`None`). */
  predicate Truthy(v: Option<Json>) {
    match v
    case None => false
    case Some(JNull) => false
    case Some(JBool(b)) => b
    case Some(JNumber(n)) => n != NaN && n != Finite(0)
    case Some(JString(s)) => s != ""
    case Some(JArray(_)) => true
    case Some(JObject(_)) => true
  }

  /** `typeof v === 'object'`, which holds for `null`, arrays and objects. */
  predicate IsObjectType(v: Json) {
    v.JNull? || v.JArray? || v.JObject?
  }

  /** The value of the last member named `key`, if any. */
  function LastMember(members: seq<(string, Json)>, key: string): (r: Option<Json>)
    ensures r.Some? ==> exists k :: 0 <= k < |members| && members[k] == (key, r.value) &&
                                    forall k' | k < k' < |members| :: members[k'].0 != key
    ensures r.None? <==> forall k | 0 <= k < |members| :: members[k].0 != key
    decreases |members|
  {
    if |members| == 0 then None
    else if members[|members| - 1].0 == key then Some(members[|members| - 1].1)
    else
      var prefix := members[..|members| - 1];
      assert forall k | 0 <= k < |prefix| :: prefix[k] == members[k];
      LastMember(prefix, key)
  }

  /** Property access `v[key]` for a key that is not a built-in property name:
      only objects have such members; on any other value the result is `undefined`. */
  function Get(v: Json, key: string): Option<Json> {
    if v.JObject? then LastMember(v.members, key) else None
  }

  /** `Get` on an absent value is `undefined` too (optional chaining). */
  function GetOpt(v: Option<Json>, key: string): Option<Json> {
    if v.Some? then Get(v.value, key) else None
  }

  /** `Number(s)` for the strings the model reads: surrounding whitespace is
      ignored, the blank string is 0, an optional sign may precede one or more
      decimal digits, and everything else is NaN. */
  function NumberOf(s: string): (r: JsNumber)
    ensures IsBlank(s) ==> r == Finite(0)
    ensures !r.PosInfinity? && !r.NegInfinity?
  {
    var t := Trim(s);
    if t == "" then Finite(0)
    else if t[0] == '-' && |t| > 1 && AllDigits(t[1..]) then Finite(-(DigitsValue(t[1..]) as int))
    else if t[0] == '+' && |t| > 1 && AllDigits(t[1..]) then Finite(DigitsValue(t[1..]))
    else if AllDigits(t) then Finite(DigitsValue(t))
    else NaN
  }

  /** `Number(String(n))` is `n` for an integer: what a client writes into a
      query string, the server reads back. */
  lemma NumberOfDecimal(n: int)
    ensures NumberOf(IntToDecimal(n)) == Finite(n)
  {
    var d := IntToDecimal(n);
    if n < 0 {
      var digits := NatToDecimal(-n);
      assert d[1..] == digits;
      assert !IsWhitespace(d[0]) && !IsWhitespace(d[|d| - 1]);
      TrimOfTrimmed(d);
      DigitsValueOfDecimal(-n);
    } else {
      TrimOfTrimmed(d);
      DigitsValueOfDecimal(n);
    }
  }
}
