/** The mock annotations endpoint `/api/annotations`: an in-memory list of
    annotations that `POST` appends to and `DELETE` removes from. */
module AnnotationsRoute {
  import opened Wrappers
  import opened Text
  import opened JsValues

  datatype Annotation = Annotation(id: string, timestamp: int, text: string)

  /** `findIndex` by id: the index of the first annotation with that id, or -1. */
  function FirstIndexOf(items: seq<Annotation>, id: string): (r: int)
    ensures -1 <= r < |items|
    ensures r == -1 <==> forall k | 0 <= k < |items| :: items[k].id != id
    ensures r >= 0 ==> items[r].id == id && forall k | 0 <= k < r :: items[k].id != id
    decreases |items|
  {
    if |items| == 0 then -1
    else if items[0].id == id then 0
    else
      var r := FirstIndexOf(items[1..], id);
      assert forall k | 1 <= k < |items| :: items[k] == items[1..][k - 1];
      if r == -1 then -1 else r + 1
  }

  /** `splice(index, 1)`: the list without entry `i`. */
  function RemoveAt(items: seq<Annotation>, i: int): (r: seq<Annotation>)
    requires 0 <= i < |items|
    ensures |r| == |items| - 1
    ensures forall k | 0 <= k < i :: r[k] == items[k]
    ensures forall k | i <= k < |r| :: r[k] == items[k + 1]
  {
    items[..i] + items[i + 1..]
  }

  /** Removing one entry removes exactly that entry from the contents. */
  lemma RemoveAtContents(items: seq<Annotation>, i: int)
    requires 0 <= i < |items|
    ensures multiset(RemoveAt(items, i)) + multiset{items[i]} == multiset(items)
  {
    assert items == items[..i] + [items[i]] + items[i + 1..];
  }

  /** No two annotations share an id. */
  predicate UniqueIds(items: seq<Annotation>) {
    forall i, j | 0 <= i < j < |items| :: items[i].id != items[j].id
  }

  /** Appending an annotation whose id is not yet present keeps ids unique. */
  lemma AppendFreshKeepsUnique(items: seq<Annotation>, a: Annotation)
    requires UniqueIds(items) && FirstIndexOf(items, a.id) == -1
    ensures UniqueIds(items + [a])
  {
    var r := items + [a];
    forall i, j | 0 <= i < j < |r| ensures r[i].id != r[j].id {
      if j == |items| {
        assert r[i] == items[i];
      } else {
        assert r[i] == items[i] && r[j] == items[j];
      }
    }
  }

  /** Removing an entry keeps ids unique. */
  lemma RemoveKeepsUnique(items: seq<Annotation>, i: int)
    requires UniqueIds(items) && 0 <= i < |items|
    ensures UniqueIds(RemoveAt(items, i))
  {
    var r := RemoveAt(items, i);
    forall p, q | 0 <= p < q < |r| ensures r[p].id != r[q].id {
      var p' := if p < i then p else p + 1;
      var q' := if q < i then q else q + 1;
      assert r[p] == items[p'] && r[q] == items[q'];
    }
  }

  /** Deleting the id of the annotation just appended gives back the list as it
      was before, when that id was not present yet. */
  lemma AppendThenRemove(items: seq<Annotation>, a: Annotation)
    requires FirstIndexOf(items, a.id) == -1
    ensures FirstIndexOf(items + [a], a.id) == |items|
    ensures RemoveAt(items + [a], |items|) == items
  {
    FreshIdFoundLast(items, a);
    RemoveLast(items, a);
  }

  lemma FreshIdFoundLast(items: seq<Annotation>, a: Annotation)
    requires FirstIndexOf(items, a.id) == -1
    ensures FirstIndexOf(items + [a], a.id) == |items|
  {
    var r := items + [a];
    assert r[|items|].id == a.id;
    assert forall k | 0 <= k < |items| :: r[k].id == items[k].id;
  }

  lemma RemoveLast(items: seq<Annotation>, a: Annotation)
    ensures RemoveAt(items + [a], |items|) == items
  {
    assert (items + [a])[..|items|] == items;
  }

  const InvalidBodyMessage: string := "Invalid JSON body"
  const TimestampMessage: string := "timestamp is required and must be a number (ms)"
  const TextMessage: string := "text is required and must be a non-empty string"
  const IdRequiredMessage: string := "id query parameter is required"
  const NotFoundMessage: string := "Annotation not found"

  datatype PostResponse =
    | PostRejected(status: int, message: string)
      /** Destructuring a `null` body throws; the framework answers with an error
          status that the handler does not choose. */
    | PostThrew
    | Created(status: int, annotation: Annotation)

  /** `isValidTimestamp`: a value of type number that is finite. */
  predicate IsValidTimestamp(v: Option<Json>)
    ensures IsValidTimestamp(v) <==> exists t :: v == Some(JNumber(Finite(t)))
  {
    v.Some? && v.value.JNumber? && IsFinite(v.value.n)
  }

  /** What `POST` answers for a body (`None` when it is not valid JSON) and the
      id `randomUUID` would produce: the three checks in order, then the new
      annotation with the text trimmed. */
  function PostOutcome(body: Option<Json>, freshId: string): (r: PostResponse)
    ensures body.None? ==> r == PostRejected(400, InvalidBodyMessage)
    ensures body == Some(JNull) ==> r == PostThrew
    ensures body.Some? && body.value != JNull && !IsValidTimestamp(Get(body.value, "timestamp")) ==>
              r == PostRejected(400, TimestampMessage)
    ensures body.Some? && IsValidTimestamp(Get(body.value, "timestamp")) &&
            !(Get(body.value, "text").Some? && Get(body.value, "text").value.JString? &&
              !IsBlank(Get(body.value, "text").value.s)) ==>
              r == PostRejected(400, TextMessage)
    ensures r.Created? <==>
              body.Some? && IsValidTimestamp(Get(body.value, "timestamp")) &&
              Get(body.value, "text").Some? && Get(body.value, "text").value.JString? &&
              Trim(Get(body.value, "text").value.s) != ""
    ensures r.Created? ==>
              r.status == 201 && r.annotation.id == freshId &&
              Some(JNumber(Finite(r.annotation.timestamp))) == Get(body.value, "timestamp") &&
              r.annotation.text == Trim(Get(body.value, "text").value.s) && r.annotation.text != ""
    ensures r.PostRejected? ==> r.status == 400
  {
    if body.None? then PostRejected(400, InvalidBodyMessage)
    else if body.value == JNull then PostThrew
    else
      var timestamp := Get(body.value, "timestamp");
      var text := Get(body.value, "text");
      if !IsValidTimestamp(timestamp) then PostRejected(400, TimestampMessage)
      else if !(text.Some? && text.value.JString?) || Trim(text.value.s) == "" then
        PostRejected(400, TextMessage)
      else Created(201, Annotation(freshId, timestamp.value.n.value, Trim(text.value.s)))
  }

  /** A body with a valid timestamp and a string text that is blank is
      rejected for its text. */
  lemma PostBlankText(freshId: string, ts: int, text: string)
    requires IsBlank(text)
    ensures PostOutcome(Some(JObject([("timestamp", JNumber(Finite(ts))), ("text", JString(text))])), freshId) ==
            PostRejected(400, TextMessage)
  {
    var members := [("timestamp", JNumber(Finite(ts))), ("text", JString(text))];
    assert members[1].0 != "timestamp";
    assert members[..1] == [("timestamp", JNumber(Finite(ts)))];
    assert LastMember(members, "timestamp") == Some(JNumber(Finite(ts)));
    assert LastMember(members, "text") == Some(JString(text));
  }

  datatype DeleteResponse =
    | DeleteRejected(status: int, message: string)
    | Deleted(id: string)

  /** The id parameter after `trim`, when it is present and not blank. */
  function IdOf(idParam: Option<string>): Option<string> {
    if idParam.None? || Trim(idParam.value) == "" then None else Some(Trim(idParam.value))
  }

  /** What `DELETE` answers for the `id` query parameter, and the list after it:
      a missing or blank id is rejected, an unknown id is not found, otherwise
      the first annotation with that id is removed. */
  function DeleteOutcome(items: seq<Annotation>, idParam: Option<string>): (r: (DeleteResponse, seq<Annotation>))
    ensures IdOf(idParam).None? ==> r == (DeleteRejected(400, IdRequiredMessage), items)
    ensures IdOf(idParam).Some? && FirstIndexOf(items, IdOf(idParam).value) == -1 ==>
              r == (DeleteRejected(404, NotFoundMessage), items)
    ensures IdOf(idParam).Some? && FirstIndexOf(items, IdOf(idParam).value) >= 0 ==>
              r.0 == Deleted(IdOf(idParam).value) &&
              multiset(r.1) + multiset{items[FirstIndexOf(items, IdOf(idParam).value)]} == multiset(items)
  {
    var id := IdOf(idParam);
    if id.None? then (DeleteRejected(400, IdRequiredMessage), items)
    else
      var index := FirstIndexOf(items, id.value);
      if index == -1 then (DeleteRejected(404, NotFoundMessage), items)
      else
        RemoveAtContents(items, index);
        (Deleted(id.value), RemoveAt(items, index))
  }

  /** Every annotation has a non-empty text. */
  predicate TextsPresent(items: seq<Annotation>) {
    forall k | 0 <= k < |items| :: items[k].text != ""
  }

  /** Appending an annotation with a fresh id and a non-empty text keeps ids
      distinct and texts non-empty. */
  lemma AppendKeepsValid(items: seq<Annotation>, a: Annotation)
    requires UniqueIds(items) && TextsPresent(items)
    requires FirstIndexOf(items, a.id) == -1 && a.text != ""
    ensures UniqueIds(items + [a]) && TextsPresent(items + [a])
  {
    AppendFreshKeepsUnique(items, a);
  }

  /** The module-level `annotations` array and the handlers that use it. */
  class Store {
    var items: seq<Annotation>

    /** What the handlers keep true of the list: ids are distinct (given that
        `randomUUID` never repeats one) and every text is non-empty. */
    ghost predicate Valid()
      reads this
    {
      UniqueIds(items) && TextsPresent(items)
    }

    constructor ()
      ensures items == [] && Valid()
    {
      items := [];
    }

    /** `addAnnotation`. */
    method Add(a: Annotation) returns (added: Annotation)
      modifies this
      ensures items == old(items) + [a] && added == a
    {
      items := items + [a];
      added := a;
    }

    /** `deleteAnnotationById`: removes the first annotation with that id and
        returns it; with no such annotation nothing changes. */
    method DeleteById(id: string) returns (removed: Option<Annotation>)
      modifies this
      ensures FirstIndexOf(old(items), id) == -1 ==> removed.None? && items == old(items)
      ensures FirstIndexOf(old(items), id) >= 0 ==>
                removed == Some(old(items)[FirstIndexOf(old(items), id)]) &&
                items == RemoveAt(old(items), FirstIndexOf(old(items), id))
    {
      var index := FirstIndexOf(items, id);
      if index == -1 {
        removed := None;
      } else {
        removed := Some(items[index]);
        items := RemoveAt(items, index);
      }
    }

    /** `GET`: the annotations in insertion order. */
    method List() returns (annotations: seq<Annotation>)
      ensures annotations == items
    {
      annotations := items;
    }

    /** `POST`: the validation outcome; only a created annotation is appended. */
    method Post(body: Option<Json>, freshId: string) returns (response: PostResponse)
      modifies this
      ensures response == PostOutcome(body, freshId)
      ensures response.Created? ==> items == old(items) + [response.annotation]
      ensures !response.Created? ==> items == old(items)
      ensures old(Valid()) && FirstIndexOf(old(items), freshId) == -1 ==> Valid()
    {
      response := PostOutcome(body, freshId);
      if response.Created? {
        ghost var before := items;
        var _ := Add(response.annotation);
        if UniqueIds(before) && TextsPresent(before) && FirstIndexOf(before, freshId) == -1 {
          AppendKeepsValid(before, response.annotation);
        }
      }
    }

    /** `DELETE`: the response and the new list are those of `DeleteOutcome`. */
    method Delete(idParam: Option<string>) returns (response: DeleteResponse)
      modifies this
      ensures (response, items) == DeleteOutcome(old(items), idParam)
      ensures old(Valid()) ==> Valid()
    {
      if UniqueIds(items) {
        DeleteLeavesNoMatch(items, idParam);
      }
      var id := IdOf(idParam);
      if id.None? {
        response := DeleteRejected(400, IdRequiredMessage);
      } else {
        var removed := DeleteById(id.value);
        if removed.None? {
          response := DeleteRejected(404, NotFoundMessage);
        } else {
          response := Deleted(id.value);
        }
      }
    }
  }

  /** Deleting by the id of an annotation just appended gives back the list as
      it was, when that id was not present and has no surrounding whitespace. */
  lemma DeleteAppended(items: seq<Annotation>, a: Annotation)
    requires FirstIndexOf(items, a.id) == -1 && a.id != "" && Trim(a.id) == a.id
    ensures DeleteOutcome(items + [a], Some(a.id)) == (Deleted(a.id), items)
  {
    TrimmedIdParses(a.id);
    DeleteAppendedId(items, a);
  }

  lemma DeleteAppendedId(items: seq<Annotation>, a: Annotation)
    requires FirstIndexOf(items, a.id) == -1 && IdOf(Some(a.id)) == Some(a.id)
    ensures DeleteOutcome(items + [a], Some(a.id)) == (Deleted(a.id), items)
  {
    AppendThenRemove(items, a);
    DeleteFound(items + [a], Some(a.id), a.id, |items|);
  }

  /** An id that needs no trimming is the id `DELETE` looks for. */
  lemma TrimmedIdParses(id: string)
    requires id != "" && Trim(id) == id
    ensures IdOf(Some(id)) == Some(id)
  {
  }

  /** `DELETE` of an id found at index `i` removes entry `i`. */
  lemma DeleteFound(items: seq<Annotation>, idParam: Option<string>, id: string, i: int)
    requires IdOf(idParam) == Some(id) && FirstIndexOf(items, id) == i && 0 <= i
    ensures DeleteOutcome(items, idParam) == (Deleted(id), RemoveAt(items, i))
  {
  }

  /** With unique ids, a successful `DELETE` leaves no annotation with that id
      and keeps the remaining ids unique. */
  lemma DeleteLeavesNoMatch(items: seq<Annotation>, idParam: Option<string>)
    requires UniqueIds(items)
    ensures DeleteOutcome(items, idParam).0.Deleted? ==>
              FirstIndexOf(DeleteOutcome(items, idParam).1, IdOf(idParam).value) == -1
    ensures UniqueIds(DeleteOutcome(items, idParam).1)
  {
    var id := IdOf(idParam);
    if id.Some? && FirstIndexOf(items, id.value) >= 0 {
      var i := FirstIndexOf(items, id.value);
      var r := RemoveAt(items, i);
      assert DeleteOutcome(items, idParam).1 == r;
      RemoveKeepsUnique(items, i);
      forall k | 0 <= k < |r| ensures r[k].id != id.value {
        if k < i {
          assert r[k] == items[k];
        } else {
          assert r[k] == items[k + 1];
        }
      }
    }
  }

  /** Posting an annotation and then deleting it by its id gives back the list
      as it was, when the fresh id was not in use and has no surrounding
      whitespace. */
  lemma CreateThenDelete(items: seq<Annotation>, body: Option<Json>, freshId: string)
    requires PostOutcome(body, freshId).Created?
    requires FirstIndexOf(items, freshId) == -1 && freshId != "" && Trim(freshId) == freshId
    ensures DeleteOutcome(items + [PostOutcome(body, freshId).annotation], Some(freshId)) ==
            (Deleted(freshId), items)
  {
    DeleteAppended(items, PostOutcome(body, freshId).annotation);
  }
}
