/** The client-side error normalisation of the axios wrapper: what message and
    status the user interface sees for a failed request. */
module ApiClient {
  import opened Wrappers
  import opened Text
  import opened JsValues

  const DefaultMessage: string := "Unable to complete your request. " + "Please try again."
  const NetworkMessage: string := "Network error. " + "Check your connection and try again."
  const TimeoutMessage: string := "Request timed out. " + "Please try again."
  const TimeoutCode: string := "ECONNABORTED"

  /** A message as the client reports it: not empty and with no surrounding
      whitespace, so that trimming it changes nothing. */
  predicate IsCleanText(s: string) {
    |s| > 0 && !IsWhitespace(s[0]) && !IsWhitespace(s[|s| - 1])
  }

  /** A clean text is its own trimmed form. */
  lemma CleanIsTrimmed(s: string)
    requires IsCleanText(s)
    ensures Trim(s) == s && s != ""
  {
    TrimOfTrimmed(s);
  }

  /** `typeof v === 'string' && v.trim()`. */
  predicate HasText(v: Json) {
    v.JString? && !IsBlank(v.s)
  }

  /** A string value whose trimmed text is not empty gives that text. */
  function NonBlankString(v: Json): (r: Option<string>)
    ensures r.Some? <==> HasText(v)
    ensures r.Some? ==> IsCleanText(r.value)
  {
    if HasText(v) then Some(Trim(v.s))
    else None
  }

  /** The index of the first entry that is a non-blank string, or -1. */
  function FirstNonBlank(items: seq<Json>): (r: int)
    ensures -1 <= r < |items|
    ensures r == -1 <==> forall i | 0 <= i < |items| :: !HasText(items[i])
    ensures r >= 0 ==> HasText(items[r]) && forall i | 0 <= i < r :: !HasText(items[i])
    decreases |items|
  {
    if |items| == 0 then -1
    else if HasText(items[0]) then 0
    else
      var r := FirstNonBlank(items[1..]);
      assert forall i | 1 <= i < |items| :: items[i] == items[1..][i - 1];
      if r == -1 then -1 else r + 1
  }

  /** `extractFirstString`: a non-blank string gives its trimmed text; an array
      gives the trimmed text of its first non-blank string entry; anything else
      gives nothing. */
  function ExtractFirstString(value: Option<Json>): (r: Option<string>)
    ensures r.Some? ==> IsCleanText(r.value)
  {
    if value.None? then None
    else if value.value.JString? then NonBlankString(value.value)
    else if value.value.JArray? then
      var i := FirstNonBlank(value.value.items);
      if i == -1 then None else NonBlankString(value.value.items[i])
    else None
  }

  /** `extractFirstString` case by case: a string yields its text when it is
      not blank; an array yields the text of its first non-blank string entry,
      and nothing when it has none; any other value yields nothing. */
  lemma ExtractFirstStringCases(value: Option<Json>)
    ensures value.Some? && value.value.JString? ==>
              (ExtractFirstString(value).Some? <==> !IsBlank(value.value.s)) &&
              (ExtractFirstString(value).Some? ==> ExtractFirstString(value).value == Trim(value.value.s))
    ensures value.Some? && value.value.JArray? ==>
              var i := FirstNonBlank(value.value.items);
              (ExtractFirstString(value).None? <==> i == -1) &&
              (i >= 0 ==> ExtractFirstString(value) == Some(Trim(value.value.items[i].s)))
    ensures value.None? || !(value.value.JString? || value.value.JArray?) ==> ExtractFirstString(value).None?
  {
  }

  /** The keys read directly off an error payload, in priority order. */
  const DirectKeys: seq<string> := ["message", "error", "detail"]

  /** The first of `keys` whose value yields a message. */
  function DirectMessage(data: Json, keys: seq<string>): (r: Option<string>)
    ensures r.Some? ==> IsCleanText(r.value)
    decreases |keys|
  {
    if |keys| == 0 then None
    else
      var candidate := ExtractFirstString(Get(data, keys[0]));
      if candidate.Some? then candidate else DirectMessage(data, keys[1..])
  }

  /** `entry && typeof entry === 'object'`: a non-null object or array. */
  predicate IsErrorEntry(entry: Json) {
    Truthy(Some(entry)) && IsObjectType(entry)
  }

  /** The first entry of `errors[]` that is an object whose `message` yields a
      message. */
  function EntriesMessage(entries: seq<Json>): (r: Option<string>)
    ensures r.Some? ==> IsCleanText(r.value)
    decreases |entries|
  {
    if |entries| == 0 then None
    else
      var message := if IsErrorEntry(entries[0]) then ExtractFirstString(Get(entries[0], "message")) else None;
      if message.Some? then message else EntriesMessage(entries[1..])
  }

  /** The `errors` member when it is an array. */
  function ErrorsMessage(errors: Option<Json>): (r: Option<string>)
    ensures r.Some? ==> IsCleanText(r.value)
    ensures errors.None? || !errors.value.JArray? ==> r.None?
  {
    if errors.Some? && errors.value.JArray? then EntriesMessage(errors.value.items) else None
  }

  /** `extractPayloadMessage`: nothing for a falsy payload, the trimmed text of
      a non-blank string, nothing for any other value that is not an object,
      and otherwise the first message found under `message`, `error`, `detail`
      and then `errors[]`. */
  function PayloadMessage(payload: Option<Json>): (r: Option<string>)
    ensures r.Some? ==> IsCleanText(r.value)
    ensures !Truthy(payload) ==> r.None?
    ensures payload.Some? && payload.value.JString? ==> r == NonBlankString(payload.value)
    ensures payload.Some? && !payload.value.JString? && !IsObjectType(payload.value) ==> r.None?
  {
    if !Truthy(payload) then None
    else if HasText(payload.value) then NonBlankString(payload.value)
    else if !IsObjectType(payload.value) then None
    else
      var direct := DirectMessage(payload.value, DirectKeys);
      if direct.Some? then direct else ErrorsMessage(Get(payload.value, "errors"))
  }

  /** The message the value under `key` yields. */
  function Candidate(data: Json, key: string): Option<string> {
    ExtractFirstString(Get(data, key))
  }

  /** The keys `message`, `error` and `detail` are tried in that order, and
      `errors[]` only when none of them yields a message. */
  lemma PayloadMessagePriority(data: Json)
    requires data.JObject?
    ensures Candidate(data, "message").Some? ==>
              PayloadMessage(Some(data)) == Candidate(data, "message")
    ensures Candidate(data, "message").None? && Candidate(data, "error").Some? ==>
              PayloadMessage(Some(data)) == Candidate(data, "error")
    ensures Candidate(data, "message").None? && Candidate(data, "error").None? &&
            Candidate(data, "detail").Some? ==>
              PayloadMessage(Some(data)) == Candidate(data, "detail")
    ensures Candidate(data, "message").None? && Candidate(data, "error").None? &&
            Candidate(data, "detail").None? ==>
              PayloadMessage(Some(data)) == ErrorsMessage(Get(data, "errors"))
  {
    assert DirectKeys[1..] == ["error", "detail"];
    assert DirectKeys[1..][1..] == ["detail"];
    assert DirectKeys[1..][1..][1..] == [];
  }

  /** The messages that `errors[]` may contribute, one per object entry. */
  function EntryCandidates(entries: seq<Json>): seq<Option<Json>>
    decreases |entries|
  {
    if |entries| == 0 then []
    else if IsErrorEntry(entries[0]) then [Get(entries[0], "message")] + EntryCandidates(entries[1..])
    else EntryCandidates(entries[1..])
  }

  /** The first candidate value that yields a message. */
  function FirstExtracted(candidates: seq<Option<Json>>): (r: Option<string>)
    decreases |candidates|
  {
    if |candidates| == 0 then None
    else if ExtractFirstString(candidates[0]).Some? then ExtractFirstString(candidates[0])
    else FirstExtracted(candidates[1..])
  }

  /** The values stored under `keys`, in order. */
  function KeyCandidates(data: Json, keys: seq<string>): (r: seq<Option<Json>>)
    ensures |r| == |keys|
    decreases |keys|
  {
    if |keys| == 0 then [] else [Get(data, keys[0])] + KeyCandidates(data, keys[1..])
  }

  /** Every value an object payload offers as a message, in the order they are
      tried: the direct keys, then the `message` of each object in `errors[]`. */
  function Candidates(data: Json): seq<Option<Json>> {
    var errors := Get(data, "errors");
    KeyCandidates(data, DirectKeys) +
    (if errors.Some? && errors.value.JArray? then EntryCandidates(errors.value.items) else [])
  }

  /** The first message in a concatenation is the first one of the front part,
      or else the first one of the back part. */
  lemma {:induction false} FirstExtractedAppend(a: seq<Option<Json>>, b: seq<Option<Json>>)
    ensures FirstExtracted(a + b) ==
            if FirstExtracted(a).Some? then FirstExtracted(a) else FirstExtracted(b)
    decreases |a|
  {
    if |a| > 0 {
      assert (a + b)[0] == a[0];
      assert (a + b)[1..] == a[1..] + b;
      FirstExtractedAppend(a[1..], b);
    } else {
      assert a + b == b;
    }
  }

  /** Scanning `errors[]` finds the first message among the object entries. */
  lemma {:induction false} EntriesMessageIsFirstCandidate(entries: seq<Json>)
    ensures EntriesMessage(entries) == FirstExtracted(EntryCandidates(entries))
    decreases |entries|
  {
    if |entries| > 0 {
      EntriesMessageIsFirstCandidate(entries[1..]);
    }
  }

  /** Trying the keys in turn finds the first message among their values. */
  lemma {:induction false} DirectMessageIsFirstCandidate(data: Json, keys: seq<string>)
    ensures DirectMessage(data, keys) == FirstExtracted(KeyCandidates(data, keys))
    decreases |keys|
  {
    if |keys| > 0 {
      DirectMessageIsFirstCandidate(data, keys[1..]);
    }
  }

  /** An object payload's message is the first message among all the values
      it offers, taken in priority order. */
  lemma PayloadMessageIsFirstCandidate(data: Json)
    requires data.JObject?
    ensures PayloadMessage(Some(data)) == FirstExtracted(Candidates(data))
  {
    var errors := Get(data, "errors");
    var back := if errors.Some? && errors.value.JArray? then EntryCandidates(errors.value.items) else [];
    FirstExtractedAppend(KeyCandidates(data, DirectKeys), back);
    DirectMessageIsFirstCandidate(data, DirectKeys);
    if errors.Some? && errors.value.JArray? {
      EntriesMessageIsFirstCandidate(errors.value.items);
    }
  }

  /** The response part of an axios error. */
  datatype AxiosResponse = AxiosResponse(status: int, data: Option<Json>)

  /** An `Error` object: its `name`, `message` and optional numeric `status`. */
  datatype ErrorObject = ErrorObject(name: string, message: string, status: Option<int>)

  /** What a request can reject with: an axios error (with its `code` and its
      `response`, when one arrived), another `Error`, or any other value. */
  datatype Thrown =
    | AxiosError(code: Option<string>, response: Option<AxiosResponse>)
    | ErrorInstance(error: ErrorObject)
    | OtherValue(value: Option<Json>)

  /** The message for a response without a usable payload message. */
  function StatusMessage(status: int): string {
    "Request failed with status " + IntToDecimal(status) + "."
  }

  /** The message chosen for an axios error. */
  function AxiosMessage(code: Option<string>, response: Option<AxiosResponse>): (r: string)
    ensures code == Some(TimeoutCode) ==> r == TimeoutMessage
    ensures code != Some(TimeoutCode) && response.None? ==> r == NetworkMessage
    ensures code != Some(TimeoutCode) && response.Some? ==>
              var payload := PayloadMessage(response.value.data);
              (payload.Some? ==> r == payload.value) &&
              (payload.None? && response.value.status != 0 ==> r == StatusMessage(response.value.status)) &&
              (payload.None? && response.value.status == 0 ==> r == DefaultMessage)
  {
    var payloadMessage := if response.Some? then PayloadMessage(response.value.data) else None;
    var message := if payloadMessage.Some? then payloadMessage.value else DefaultMessage;
    if code == Some(TimeoutCode) then TimeoutMessage
    else if response.None? then NetworkMessage
    else if payloadMessage.None? && response.value.status != 0 then StatusMessage(response.value.status)
    else message
  }

  /** `normalizeError`: an axios error becomes an `ApiError` with the chosen
      message and, when the status is not 0, that status; another `Error` is
      passed through; any other value becomes an `Error` with the default
      message. */
  function NormalizeError(e: Thrown): (r: ErrorObject)
    ensures e.AxiosError? ==> r.name == "ApiError" && r.message == AxiosMessage(e.code, e.response)
    ensures e.AxiosError? ==>
              (r.status.Some? <==> e.response.Some? && e.response.value.status != 0) &&
              (r.status.Some? ==> r.status.value == e.response.value.status)
    ensures e.ErrorInstance? ==> r == e.error
    ensures e.OtherValue? ==> r == ErrorObject("Error", DefaultMessage, None)
  {
    match e
    case AxiosError(code, response) =>
      var status := if response.Some? then response.value.status else 0;
      ErrorObject("ApiError", AxiosMessage(code, response), if status != 0 then Some(status) else None)
    case ErrorInstance(error) => error
    case OtherValue(_) => ErrorObject("Error", DefaultMessage, None)
  }

  /** A timeout reports the timeout message whatever the response says. */
  lemma TimeoutIgnoresResponse(r1: Option<AxiosResponse>, r2: Option<AxiosResponse>)
    ensures NormalizeError(AxiosError(Some(TimeoutCode), r1)).message ==
            NormalizeError(AxiosError(Some(TimeoutCode), r2)).message
  {
  }

  /** The status message names the status: its decimal digits read back as
      the status. */
  lemma StatusMessageNamesStatus(status: nat)
    ensures var m := StatusMessage(status);
            var prefix := "Request failed with status ";
            |m| == |prefix| + |NatToDecimal(status)| + 1 &&
            m[..|prefix|] == prefix &&
            DigitsValue(m[|prefix|..|m| - 1]) == status
  {
    var prefix := "Request failed with status ";
    var digits := NatToDecimal(status);
    var m := StatusMessage(status);
    assert m == prefix + digits + ".";
    assert m[|prefix|..|m| - 1] == digits;
    DigitsValueOfDecimal(status);
  }

  /** Every axios error reaches the user with a non-blank, trimmed message. */
  lemma {:induction false} AxiosMessageIsClean(code: Option<string>, response: Option<AxiosResponse>)
    ensures IsCleanText(AxiosMessage(code, response))
  {
    var m := AxiosMessage(code, response);
    if code == Some(TimeoutCode) {
      CleanConstant(TimeoutMessage);
    } else if response.None? {
      CleanConstant(NetworkMessage);
    } else if PayloadMessage(response.value.data).None? {
      if response.value.status != 0 {
        StatusMessageIsClean(response.value.status);
      } else {
        CleanConstant(DefaultMessage);
      }
    }
  }

  /** A text that starts and ends with a visible character is clean. */
  lemma CleanConstant(s: string)
    requires |s| > 0 && !IsWhitespace(s[0]) && !IsWhitespace(s[|s| - 1])
    ensures IsCleanText(s)
  {
    TrimOfTrimmed(s);
  }

  lemma StatusMessageIsClean(status: int)
    ensures IsCleanText(StatusMessage(status))
  {
    var m := StatusMessage(status);
    assert m[0] == 'R' && m[|m| - 1] == '.';
    CleanConstant(m);
  }
}
