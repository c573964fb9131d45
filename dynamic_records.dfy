/** Records as the JavaScript and Python stores hold them: objects with
    arbitrary keys, merged with the spread operators `{...a, ...b}` and
    `{**a, **b}`, and the list operations the stores apply to them. */
module DynamicRecords {
  import opened Common

  /** A JSON-like value. Numbers are integers here. */
  datatype Value = Null | Bool(b: bool) | Num(n: int) | Str(s: string) | Arr(items: seq<Value>) | Obj(fields: map<string, Value>)

  type Record = map<string, Value>

  /** The id test of both stores: the record's "id" key holds the string `id`. */
  predicate HasId(r: Record, id: string)
  {
    "id" in r && r["id"] == Str(id)
  }

  /** `{...base, ...over}` / `{**base, **over}`: every key of either, the
      later object winning. */
  function Merge(base: Record, over: Record): (r: Record)
    ensures r.Keys == base.Keys + over.Keys
    ensures forall k :: k in over ==> r[k] == over[k]
    ensures forall k :: k in base && k !in over ==> r[k] == base[k]
  {
    base + over
  }

  /** An object literal with the generated id first and the body spread after it. */
  function IdThenSpread(id: string, body: Record): (r: Record)
    ensures r.Keys == body.Keys + {"id"}
    ensures forall k :: k in body ==> r[k] == body[k]
  {
    Merge(map["id" := Str(id)], body)
  }

  /** A dict literal with the body unpacked first and the id after it. */
  function SpreadThenId(body: Record, id: string): (r: Record)
    ensures r.Keys == body.Keys + {"id"}
    ensures r["id"] == Str(id)
  {
    Merge(body, map["id" := Str(id)])
  }

  /** With the id written first, a body carrying its own "id" overrides
      the generated one; without one, the record gets the generated id. */
  lemma IdThenSpreadId(id: string, body: Record)
    ensures "id" in body ==> IdThenSpread(id, body)["id"] == body["id"]
    ensures "id" !in body ==> HasId(IdThenSpread(id, body), id)
    ensures forall k :: k in body ==> k in IdThenSpread(id, body) && IdThenSpread(id, body)[k] == body[k]
  {
  }

  /** With the id written last, the record always has the generated id,
      and every other key of the body is kept. */
  lemma SpreadThenIdWins(id: string, body: Record)
    ensures HasId(SpreadThenId(body, id), id)
    ensures forall k :: k in body && k != "id" ==> k in SpreadThenId(body, id) && SpreadThenId(body, id)[k] == body[k]
    ensures SpreadThenId(body, id).Keys == body.Keys + {"id"}
  {
  }

  /** Merging the same update twice is merging it once. */
  lemma MergeIdempotent(base: Record, over: Record)
    ensures Merge(Merge(base, over), over) == Merge(base, over)
  {
  }

  /** `Array.prototype.findIndex` with the id test, and the position the
      Python loops stop at: the first record with the id. */
  function FindFirst(s: seq<Record>, id: string): (r: Option<nat>)
    ensures r.Some? ==> r.value < |s| && HasId(s[r.value], id)
    ensures r.Some? ==> forall j :: 0 <= j < r.value ==> !HasId(s[j], id)
    ensures r.None? <==> forall j :: 0 <= j < |s| ==> !HasId(s[j], id)
  {
    if s == [] then None
    else if HasId(s[0], id) then Some(0)
    else match FindFirst(s[1..], id)
      case None => None
      case Some(i) => Some(i + 1)
  }

  /** The filter both stores use to delete: the records without the id, in order. */
  function RemoveAll(s: seq<Record>, id: string): (r: seq<Record>)
    ensures |r| <= |s|
    ensures forall x :: x in r ==> x in s && !HasId(x, id)
  {
    if s == [] then []
    else if HasId(s[0], id) then RemoveAll(s[1..], id)
    else [s[0]] + RemoveAll(s[1..], id)
  }

  /** Every record without the id survives the filter. */
  lemma {:induction false} RemoveAllKeepsOthers(s: seq<Record>, id: string)
    ensures forall x :: x in s && !HasId(x, id) ==> x in RemoveAll(s, id)
  {
    if s != [] {
      RemoveAllKeepsOthers(s[1..], id);
      forall x | x in s && !HasId(x, id) ensures x in RemoveAll(s, id) {
        if x != s[0] {
          assert x in s[1..];
        }
      }
    }
  }

  /** The filter keeps the order of what it keeps: it distributes over
      concatenation. */
  lemma {:induction false} RemoveAllAppend(a: seq<Record>, b: seq<Record>, id: string)
    ensures RemoveAll(a + b, id) == RemoveAll(a, id) + RemoveAll(b, id)
    decreases |a|
  {
    if a == [] {
      assert a + b == b;
    } else {
      assert (a + b)[1..] == a[1..] + b;
      RemoveAllAppend(a[1..], b, id);
    }
  }

  /** The list shrinks exactly when some record has the id, and a list
      without the id is returned unchanged. */
  lemma {:induction false} RemoveAllShrinks(s: seq<Record>, id: string)
    ensures |RemoveAll(s, id)| < |s| <==> FindFirst(s, id).Some?
    ensures FindFirst(s, id).None? ==> RemoveAll(s, id) == s
  {
    if s != [] {
      RemoveAllShrinks(s[1..], id);
      if !HasId(s[0], id) {
        assert FindFirst(s, id).Some? <==> FindFirst(s[1..], id).Some?;
      }
    }
  }

  /** Filtering twice is filtering once. */
  lemma {:induction false} RemoveAllIdempotent(s: seq<Record>, id: string)
    ensures RemoveAll(RemoveAll(s, id), id) == RemoveAll(s, id)
  {
    var r := RemoveAll(s, id);
    assert FindFirst(r, id).None? by {
      forall j | 0 <= j < |r| ensures !HasId(r[j], id) {
        assert r[j] in r;
      }
    }
    RemoveAllShrinks(r, id);
  }

  /** A record appended with an id no earlier record has is the first
      match for that id. */
  lemma FindAppended(s: seq<Record>, r: Record, id: string)
    requires FindFirst(s, id).None? && HasId(r, id)
    ensures FindFirst(s + [r], id) == Some(|s|)
  {
    assert (s + [r])[|s|] == r;
    forall j | 0 <= j < |s| ensures !HasId((s + [r])[j], id) {
      assert (s + [r])[j] == s[j];
    }
  }

  /** Appending a record does not change the first match of an id that
      already has one. */
  lemma {:induction false} FindBeforeAppend(s: seq<Record>, r: Record, id: string)
    requires FindFirst(s, id).Some?
    ensures FindFirst(s + [r], id) == FindFirst(s, id)
  {
    var i := FindFirst(s, id).value;
    var t := s + [r];
    assert t[i] == s[i];
    forall j | 0 <= j < i ensures !HasId(t[j], id) {
      assert t[j] == s[j];
    }
    FirstMatchUnique(t, id, i);
  }

  /** A position holding the id with no earlier one is the first match. */
  lemma FirstMatchUnique(s: seq<Record>, id: string, i: nat)
    requires i < |s| && HasId(s[i], id) && forall j :: 0 <= j < i ==> !HasId(s[j], id)
    ensures FindFirst(s, id) == Some(i)
  {
  }

  /** A one-element splice: the list without position `i`, the rest in order. */
  function RemoveAt(s: seq<Record>, i: nat): (r: seq<Record>)
    requires i < |s|
    ensures |r| == |s| - 1
    ensures forall j :: 0 <= j < i ==> r[j] == s[j]
    ensures forall j :: i <= j < |r| ==> r[j] == s[j + 1]
  {
    s[..i] + s[i + 1..]
  }

  /** At most one record carries the id. */
  predicate UniqueId(s: seq<Record>, id: string)
  {
    forall i, j :: 0 <= i < j < |s| ==> !(HasId(s[i], id) && HasId(s[j], id))
  }

  /** When at most one record carries the id, removing the first match
      (NestJS) and removing every match (Node, FastAPI) agree. */
  lemma {:induction false} RemoveFirstIsRemoveAll(s: seq<Record>, id: string)
    requires FindFirst(s, id).Some? && UniqueId(s, id)
    ensures RemoveAt(s, FindFirst(s, id).value) == RemoveAll(s, id)
  {
    var i := FindFirst(s, id).value;
    var pre, x, post := s[..i], s[i], s[i + 1..];
    NoLaterMatch(s, id, i);
    forall j | 0 <= j < |post| ensures !HasId(post[j], id) {
      assert post[j] == s[i + 1 + j];
    }
    SplitAt(s, i);
    KeepsListWithoutId(pre, id);
    KeepsListWithoutId(post, id);
    RemoveAllAppend(pre + [x], post, id);
    RemoveAllAppend(pre, [x], id);
    RemoveAllOfMatch(x, id);
    assert RemoveAll(pre + [x], id) == pre;
    assert RemoveAll((pre + [x]) + post, id) == pre + post;
    assert RemoveAll(s, id) == pre + post;
  }

  lemma SplitAt(s: seq<Record>, i: nat)
    requires i < |s|
    ensures s == (s[..i] + [s[i]]) + s[i + 1..]
    ensures RemoveAt(s, i) == s[..i] + s[i + 1..]
  {
  }

  lemma RemoveAllOfMatch(x: Record, id: string)
    requires HasId(x, id)
    ensures RemoveAll([x], id) == []
  {
    assert [x][1..] == [];
  }

  /** With at most one record per id, nothing after a match has the id. */
  lemma NoLaterMatch(s: seq<Record>, id: string, i: nat)
    requires UniqueId(s, id) && i < |s| && HasId(s[i], id)
    ensures forall j :: i < j < |s| ==> !HasId(s[j], id)
  {
  }

  lemma KeepsListWithoutId(s: seq<Record>, id: string)
    requires forall j :: 0 <= j < |s| ==> !HasId(s[j], id)
    ensures RemoveAll(s, id) == s
  {
    RemoveAllShrinks(s, id);
  }

  /** A record created as `{ id, ...body }` on a list without that id is
      found by the id, as long as the body carries no "id" of its own. */
  lemma IdThenSpreadIsFound(s: seq<Record>, id: string, body: Record)
    requires FindFirst(s, id).None? && "id" !in body
    ensures FindFirst(s + [IdThenSpread(id, body)], id) == Some(|s|)
  {
    IdThenSpreadId(id, body);
    FindAppended(s, IdThenSpread(id, body), id);
  }

  /** A body carrying a different "id" makes the created record
      unreachable by the generated id. */
  lemma IdThenSpreadOverridden(s: seq<Record>, id: string, body: Record)
    requires FindFirst(s, id).None? && "id" in body && body["id"] != Str(id)
    ensures FindFirst(s + [IdThenSpread(id, body)], id).None?
  {
    var t := s + [IdThenSpread(id, body)];
    forall j | 0 <= j < |t| ensures !HasId(t[j], id) {
      if j < |s| {
        assert t[j] == s[j];
      }
    }
  }

  /** A record created as `{**body, "id": id}` on a list without that id is
      found by the id, whatever the body holds. */
  lemma SpreadThenIdIsFound(s: seq<Record>, id: string, body: Record)
    requires FindFirst(s, id).None?
    ensures FindFirst(s + [SpreadThenId(body, id)], id) == Some(|s|)
  {
    SpreadThenIdWins(id, body);
    FindAppended(s, SpreadThenId(body, id), id);
  }

  /** After the filter no record has the id, and only records with it are gone. */
  lemma RemoveAllRemovesId(s: seq<Record>, id: string)
    ensures FindFirst(RemoveAll(s, id), id).None?
    ensures forall x :: x in s && !HasId(x, id) ==> x in RemoveAll(s, id)
  {
    var r := RemoveAll(s, id);
    forall j | 0 <= j < |r| ensures !HasId(r[j], id) {
      assert r[j] in r;
    }
    RemoveAllKeepsOthers(s, id);
  }
}
