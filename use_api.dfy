/**
 * The client-side list stores of useApi.js. `useApi` keeps a loading flag
 * and an error message around each API call; `useNovels`, `useChapters`,
 * `useCharacters` and `useNotes` each keep a list of records that their
 * operations replace, append to, merge into and filter. The API call itself
 * is an oracle: the value it resolves to, or the error it throws.
 */
module UseApi {
  import opened Js

  /** A record as the API returns it: a JSON object. */
  type Record = map<string, Value>

  /** The outcome of an awaited API call: its value, or a thrown error with its `message`. */
  datatype Outcome<T> = Ok(value: T) | Thrown(message: Option<string>)

  /** `ERROR_MESSAGES.UNKNOWN_ERROR` of helpers.js. */
  const UnknownError := "An unexpected error occurred. Please try again."

  /** `item[key] === id`; a record without the key never matches. */
  predicate HasId(item: Record, key: string, id: Value)
  {
    key in item && item[key] == id
  }

  /** `prev.map(item => item[key] === id ? { ...item, ...updates } : item)`. */
  function UpdateWhere(items: seq<Record>, key: string, id: Value, updates: Record): (r: seq<Record>)
    ensures |r| == |items|
    ensures forall i :: 0 <= i < |items| && HasId(items[i], key, id) ==> r[i] == items[i] + updates
    ensures forall i :: 0 <= i < |items| && !HasId(items[i], key, id) ==> r[i] == items[i]
  {
    seq(|items|, i requires 0 <= i < |items| =>
      if HasId(items[i], key, id) then items[i] + updates else items[i])
  }

  /** `prev.filter(item => item[key] !== id)`. */
  function RemoveWhere(items: seq<Record>, key: string, id: Value): (r: seq<Record>)
    ensures |r| <= |items|
  {
    if items == [] then []
    else (if HasId(items[0], key, id) then [] else [items[0]]) + RemoveWhere(items[1..], key, id)
  }

  /** The filter keeps exactly the records without the id: none with it, and every one without it. */
  lemma {:induction false} RemoveWhereMembers(items: seq<Record>, key: string, id: Value)
    ensures forall k :: 0 <= k < |RemoveWhere(items, key, id)| ==>
      RemoveWhere(items, key, id)[k] in items && !HasId(RemoveWhere(items, key, id)[k], key, id)
    ensures forall i :: 0 <= i < |items| && !HasId(items[i], key, id) ==> items[i] in RemoveWhere(items, key, id)
  {
    if items != [] {
      var rest := RemoveWhere(items[1..], key, id);
      RemoveWhereMembers(items[1..], key, id);
      var head: seq<Record> := if HasId(items[0], key, id) then [] else [items[0]];
      var r := head + rest;
      assert RemoveWhere(items, key, id) == r;
      forall k | 0 <= k < |r|
        ensures r[k] in items && !HasId(r[k], key, id)
      {
        if k >= |head| {
          assert r[k] == rest[k - |head|];
        }
      }
      forall i | 0 <= i < |items| && !HasId(items[i], key, id)
        ensures items[i] in r
      {
        if i > 0 {
          assert items[i] == items[1..][i - 1];
        }
      }
    }
  }

  /** `items.find(item => item[key] === id)`: the first record with the id. */
  function FindFirst(items: seq<Record>, key: string, id: Value): (r: Option<Record>)
    ensures r.None? <==> forall i :: 0 <= i < |items| ==> !HasId(items[i], key, id)
    ensures r.Some? ==>
      exists i :: 0 <= i < |items| && items[i] == r.value && HasId(items[i], key, id)
        && (forall j :: 0 <= j < i ==> !HasId(items[j], key, id))
  {
    if items == [] then None
    else if HasId(items[0], key, id) then Some(items[0])
    else
      var rest := FindFirst(items[1..], key, id);
      assert forall i :: 1 <= i < |items| ==> items[i] == items[1..][i - 1];
      rest
  }

  /**
   * The merge is shallow and keys are taken verbatim: a key the updates do
   * not name keeps its value in every record, and the records' ids are
   * compared, not rewritten, unless the updates name the id key itself.
   */
  lemma UpdateKeepsUnnamedKeys(items: seq<Record>, key: string, id: Value, updates: Record, i: nat, k: string)
    requires i < |items| && k !in updates
    ensures k in UpdateWhere(items, key, id, updates)[i] <==> k in items[i]
    ensures k in items[i] ==> UpdateWhere(items, key, id, updates)[i][k] == items[i][k]
  {
  }

  /** Updating twice with the same changes is updating once. */
  lemma UpdateIdempotent(items: seq<Record>, key: string, id: Value, updates: Record)
    ensures UpdateWhere(UpdateWhere(items, key, id, updates), key, id, updates) == UpdateWhere(items, key, id, updates)
  {
    var once := UpdateWhere(items, key, id, updates);
    var twice := UpdateWhere(once, key, id, updates);
    forall i | 0 <= i < |items|
      ensures twice[i] == once[i]
    {
      if HasId(once[i], key, id) && HasId(items[i], key, id) {
        assert (items[i] + updates) + updates == items[i] + updates;
      }
    }
  }

  /** `{ content }` lands under `content` and leaves `Content` alone. */
  lemma LowerCaseKeyDoesNotTouchContent()
    ensures var item: Record := map["ChapterID" := Num(7), "Content" := Str("old")];
      var r := UpdateWhere([item], "ChapterID", Num(7), map["content" := Str("new")]);
      r[0]["Content"] == Str("old") && r[0]["content"] == Str("new")
  {
    var item: Record := map["ChapterID" := Num(7), "Content" := Str("old")];
    assert HasId(item, "ChapterID", Num(7));
    assert "content" != "Content";
  }

  /** Filtering distributes over concatenation, so the remaining records keep their order. */
  lemma {:induction false} RemoveWhereAppend(a: seq<Record>, b: seq<Record>, key: string, id: Value)
    ensures RemoveWhere(a + b, key, id) == RemoveWhere(a, key, id) + RemoveWhere(b, key, id)
  {
    if a == [] {
      assert a + b == b;
    } else {
      assert (a + b)[0] == a[0];
      assert (a + b)[1..] == a[1..] + b;
      RemoveWhereAppend(a[1..], b, key, id);
    }
  }

  /** A list without the id is left as it is. */
  lemma {:induction false} RemoveWhereNoMatch(items: seq<Record>, key: string, id: Value)
    requires forall i :: 0 <= i < |items| ==> !HasId(items[i], key, id)
    ensures RemoveWhere(items, key, id) == items
  {
    if items != [] {
      RemoveWhereNoMatch(items[1..], key, id);
      assert items == [items[0]] + items[1..];
    }
  }

  /** Deleting the id of a record just created removes it again, with every other record of that id. */
  lemma DeleteAfterCreate(items: seq<Record>, x: Record, key: string, id: Value)
    requires HasId(x, key, id)
    ensures RemoveWhere(items + [x], key, id) == RemoveWhere(items, key, id)
  {
    RemoveWhereAppend(items, [x], key, id);
    assert RemoveWhere([x], key, id) == [] by {
      assert [x][1..] == [];
    }
    assert RemoveWhere(items, key, id) + [] == RemoveWhere(items, key, id);
  }

  /** Deleting twice is deleting once. */
  lemma DeleteIdempotent(items: seq<Record>, key: string, id: Value)
    ensures RemoveWhere(RemoveWhere(items, key, id), key, id) == RemoveWhere(items, key, id)
  {
    RemoveWhereMembers(items, key, id);
    RemoveWhereNoMatch(RemoveWhere(items, key, id), key, id);
  }

  /**
   * One list hook: `useNovels`, `useChapters`, `useCharacters` or
   * `useNotes`, which differ only in the id key and in the API calls.
   */
  class ListStore {
    var items: seq<Record>
    var loading: bool
    var error: Option<string>
    const idKey: string

    constructor Novels()
      ensures idKey == "NovelID" && items == [] && !loading && error.None?
    {
      idKey, items, loading, error := "NovelID", [], false, None;
    }

    constructor Chapters()
      ensures idKey == "ChapterID" && items == [] && !loading && error.None?
    {
      idKey, items, loading, error := "ChapterID", [], false, None;
    }

    constructor Characters()
      ensures idKey == "CharacterID" && items == [] && !loading && error.None?
    {
      idKey, items, loading, error := "CharacterID", [], false, None;
    }

    constructor Notes()
      ensures idKey == "NoteID" && items == [] && !loading && error.None?
    {
      idKey, items, loading, error := "NoteID", [], false, None;
    }

    /** The start of `request`: loading, and no error. */
    method BeginRequest()
      modifies this
      ensures loading && error.None? && items == old(items)
    {
      loading := true;
      error := None;
    }

    /**
     * The end of `request`: not loading; on a thrown error, its message (or
     * the generic one when it has none) is kept and the error is passed on.
     */
    method EndRequest<T>(call: Outcome<T>) returns (r: Outcome<T>)
      modifies this
      ensures r == call && !loading && items == old(items)
      ensures call.Ok? ==> error == old(error)
      ensures call.Thrown? ==> error == Some(OrElse(call.message, UnknownError))
    {
      if call.Thrown? {
        error := Some(OrElse(call.message, UnknownError));
      }
      loading := false;
      r := call;
    }

    /** `request(apiCall, ...args)`. */
    method Request<T>(call: Outcome<T>) returns (r: Outcome<T>)
      modifies this
      ensures r == call && !loading && items == old(items)
      ensures call.Ok? ==> error.None?
      ensures call.Thrown? ==> error == Some(OrElse(call.message, UnknownError))
    {
      BeginRequest();
      r := EndRequest(call);
    }

    method ClearError()
      modifies this
      ensures error.None? && items == old(items) && loading == old(loading)
    {
      error := None;
    }

    /** `loadX`: the list becomes the data, or empty when the data is null. */
    method Load(call: Outcome<Option<seq<Record>>>) returns (r: Outcome<Option<seq<Record>>>)
      modifies this
      ensures r == call && !loading
      ensures call.Ok? && call.value.Some? ==> items == call.value.value
      ensures call.Ok? && call.value.None? ==> items == []
      ensures call.Thrown? ==> items == old(items)
      ensures call.Ok? ==> error.None?
      ensures call.Thrown? ==> error == Some(OrElse(call.message, UnknownError))
    {
      r := Request(call);
      if r.Ok? {
        items := if r.value.Some? then r.value.value else [];
      }
    }

    /** `createX`: the record the server returns is appended. */
    method Create(call: Outcome<Record>) returns (r: Outcome<Record>)
      modifies this
      ensures r == call && !loading
      ensures call.Ok? ==> items == old(items) + [call.value]
      ensures call.Thrown? ==> items == old(items)
      ensures call.Ok? ==> error.None?
      ensures call.Thrown? ==> error == Some(OrElse(call.message, UnknownError))
    {
      r := Request(call);
      if r.Ok? {
        items := items + [r.value];
      }
    }

    /**
     * `updateX`: the local updates, not the record the server returns, are
     * merged into every record with the id.
     */
    method Update(id: Value, updates: Record, call: Outcome<Record>) returns (r: Outcome<Record>)
      modifies this
      ensures r == call && !loading
      ensures call.Ok? ==> items == UpdateWhere(old(items), idKey, id, updates)
      ensures call.Thrown? ==> items == old(items)
      ensures call.Ok? ==> error.None?
      ensures call.Thrown? ==> error == Some(OrElse(call.message, UnknownError))
    {
      r := Request(call);
      if r.Ok? {
        items := UpdateWhere(items, idKey, id, updates);
      }
    }

    /** `deleteX`: every record with the id is removed. */
    method Delete(id: Value, call: Outcome<()>) returns (r: Outcome<()>)
      modifies this
      ensures r == call && !loading
      ensures call.Ok? ==> items == RemoveWhere(old(items), idKey, id)
      ensures call.Thrown? ==> items == old(items)
      ensures call.Ok? ==> error.None?
      ensures call.Thrown? ==> error == Some(OrElse(call.message, UnknownError))
    {
      r := Request(call);
      if r.Ok? {
        items := RemoveWhere(items, idKey, id);
      }
    }

    /** `getChapterById`: the first record of the list with the id. */
    method FindById(id: Value) returns (r: Option<Record>)
      ensures r.None? <==> forall i :: 0 <= i < |items| ==> !HasId(items[i], idKey, id)
      ensures r.Some? ==> r.value in items && HasId(r.value, idKey, id)
      ensures r == FindFirst(items, idKey, id)
    {
      r := FindFirst(items, idKey, id);
    }
  }
}
