/**
 * Document stringification (`_stringify_data` in synch_service_utils/utils.py).
 *
 * Before a query result is JSON-encoded, object ids become "N/A" and temporal
 * values become their `str()` form. A list argument must hold dicts and only
 * the top-level values of each dict are looked at, converting ObjectId and
 * `datetime.datetime`; a dict argument converts ObjectId and every
 * `datetime.date` (datetimes included, being a subclass). Nested dicts go
 * through the dict branch in both cases; lists are never entered.
 *
 * A document is a value of the closed type `Value`. `str()` of a date or
 * datetime is library behaviour and is not modelled: each temporal value
 * carries the text `str()` gives for it.
 */
module Documents {
  import opened Basics

  datatype Value =
    | Null
    | Bool(flag: bool)
    | Int(num: int)
    | Str(text: string)
    | ObjId(hex: string)               // bson ObjectId
    | Date(shown: string)              // datetime.date, with the text str() gives
    | DateTime(shown: string)          // datetime.datetime, with the text str() gives
    | List(items: seq<Value>)
    | Dict(entries: map<string, Value>)
    | Other(kind: string)              // any other primitive (float, bytes, ...)

  datatype StringifyError =
    | TypeError                        // the argument is neither a list nor a dict
    | AttributeError(index: nat)       // element `index` of a list argument has no `items()`

  /** What an ObjectId becomes. */
  const NotAvailable := "N/A"

  /** `isinstance(v, datetime.date)`: true of dates and of datetimes. */
  predicate IsDateLike(v: Value)
  {
    v.Date? || v.DateTime?
  }

  // ---------------------------------------------------------------------------
  // The specification of the two branches

  /** What the dict branch stores for a value `v` (utils.py lines 174-180). */
  function InDict(v: Value): Value
    decreases v, 1
  {
    match v
    case ObjId(_) => Str(NotAvailable)
    case Date(s) => Str(s)
    case DateTime(s) => Str(s)
    case Dict(m) => Dict(StringifyDict(m))
    case _ => v
  }

  /** The dict branch applied to a dict. */
  function StringifyDict(m: map<string, Value>): map<string, Value>
    decreases Dict(m), 0
  {
    map k | k in m :: InDict(m[k])
  }

  /** What the list branch stores for a top-level value `v` of an element (utils.py lines 164-170). */
  function InListElement(v: Value): Value
  {
    match v
    case ObjId(_) => Str(NotAvailable)
    case DateTime(s) => Str(s)
    case Dict(m) => Dict(StringifyDict(m))
    case _ => v
  }

  /** The list branch applied to one element's dict. */
  function StringifyElement(m: map<string, Value>): map<string, Value>
  {
    map k | k in m :: InListElement(m[k])
  }

  /** The position of the first element that is not a dict: where the list branch raises. */
  function FirstNonDict(items: seq<Value>): (i: nat)
    requires exists j :: 0 <= j < |items| && !items[j].Dict?
    ensures i < |items| && !items[i].Dict?
    ensures forall j :: 0 <= j < i ==> items[j].Dict?
  {
    if !items[0].Dict? then 0
    else
      assert exists j :: 0 <= j < |items[1..]| && !items[1..][j].Dict? by {
        var j :| 0 <= j < |items| && !items[j].Dict?;
        assert items[1..][j - 1] == items[j];
      }
      1 + FirstNonDict(items[1..])
  }

  /** The list branch. */
  function StringifyList(items: seq<Value>): Result<seq<Value>, StringifyError>
  {
    if forall j :: 0 <= j < |items| ==> items[j].Dict? then
      Ok(seq(|items|, j requires 0 <= j < |items| && items[j].Dict? =>
               Dict(StringifyElement(items[j].entries))))
    else
      Err(AttributeError(FirstNonDict(items)))
  }

  /** What `_stringify_data(docs)` returns or raises. */
  function Stringify(docs: Value): Result<Value, StringifyError>
  {
    match docs
    case List(items) =>
      (match StringifyList(items)
       case Ok(s) => Ok(List(s))
       case Err(e) => Err(e))
    case Dict(m) => Ok(Dict(StringifyDict(m)))
    case _ => Err(TypeError)
  }

  // ---------------------------------------------------------------------------
  // The walk as written

  /** The dict branch: overwrite each value of `docs` in turn; recurse into nested dicts. */
  method StringifyMapping(docs: map<string, Value>) returns (r: map<string, Value>)
    ensures r == StringifyDict(docs)
    decreases Dict(docs)
  {
    r := docs;
    var pending := docs.Keys;
    while pending != {}
      invariant pending <= docs.Keys && r.Keys == docs.Keys
      invariant forall k :: k in pending ==> r[k] == docs[k]
      invariant forall k :: k in docs && k !in pending ==> r[k] == InDict(docs[k])
      decreases pending
    {
      var k :| k in pending;
      var v := r[k];
      if v.ObjId? {
        r := r[k := Str(NotAvailable)];
      } else if IsDateLike(v) {
        r := r[k := Str(v.shown)];
      } else if v.Dict? {
        var nested := StringifyMapping(v.entries);
        r := r[k := Dict(nested)];
      }
      pending := pending - {k};
    }
  }

  /** The list branch's inner loop: overwrite each top-level value of one element's dict. */
  method StringifyElementValues(d: map<string, Value>) returns (r: map<string, Value>)
    ensures r == StringifyElement(d)
  {
    r := d;
    var pending := d.Keys;
    while pending != {}
      invariant pending <= d.Keys && r.Keys == d.Keys
      invariant forall k :: k in pending ==> r[k] == d[k]
      invariant forall k :: k in d && k !in pending ==> r[k] == InListElement(d[k])
      decreases pending
    {
      var k :| k in pending;
      var v := r[k];
      if v.ObjId? {
        r := r[k := Str(NotAvailable)];
      } else if v.DateTime? {
        r := r[k := Str(v.shown)];
      } else if v.Dict? {
        var nested := StringifyMapping(v.entries);
        r := r[k := Dict(nested)];
      }
      pending := pending - {k};
    }
  }

  /** `_stringify_data`: the list branch, the dict branch, or `TypeError`. */
  method StringifyData(docs: Value) returns (r: Result<Value, StringifyError>)
    ensures r == Stringify(docs)
  {
    if docs.List? {
      var items := docs.items;
      var i := 0;
      while i < |items|
        invariant 0 <= i <= |items| == |docs.items|
        invariant forall j :: 0 <= j < i ==>
                    docs.items[j].Dict? && items[j] == Dict(StringifyElement(docs.items[j].entries))
        invariant forall j :: i <= j < |items| ==> items[j] == docs.items[j]
      {
        var d := items[i];
        if !d.Dict? {
          return Err(AttributeError(i));
        }
        var m := StringifyElementValues(d.entries);
        items := items[i := Dict(m)];
        i := i + 1;
      }
      assert forall j :: 0 <= j < |docs.items| ==> docs.items[j].Dict?;
      assert items == seq(|docs.items|, j requires 0 <= j < |docs.items| && docs.items[j].Dict? =>
                            Dict(StringifyElement(docs.items[j].entries)));
      return Ok(List(items));
    } else if docs.Dict? {
      var m := StringifyMapping(docs.entries);
      return Ok(Dict(m));
    } else {
      return Err(TypeError);
    }
  }

  // ---------------------------------------------------------------------------
  // Properties

  /** No ObjectId, date or datetime is left where the dict branch looks: at any depth of nested dicts. */
  ghost predicate SafeInDict(v: Value)
  {
    match v
    case ObjId(_) => false
    case Date(_) => false
    case DateTime(_) => false
    case Dict(m) => forall k :: k in m ==> SafeInDict(m[k])
    case _ => true
  }

  /** No ObjectId or datetime is left where the list branch looks; a plain date is not its concern. */
  ghost predicate SafeInListElement(v: Value)
  {
    match v
    case ObjId(_) => false
    case DateTime(_) => false
    case Dict(m) => forall k :: k in m ==> SafeInDict(m[k])
    case _ => true
  }

  /**
   * `b` is `a` with some ObjectIds replaced by "N/A" and some temporal values by their text:
   * same constructors, same dict keys, same list lengths, every other leaf equal.
   */
  ghost predicate SameShape(a: Value, b: Value)
  {
    match a
    case Dict(m) =>
      b.Dict? && b.entries.Keys == m.Keys && forall k :: k in m ==> SameShape(m[k], b.entries[k])
    case List(s) =>
      b.List? && |b.items| == |s| && forall i :: 0 <= i < |s| ==> SameShape(s[i], b.items[i])
    case ObjId(_) => b == a || b == Str(NotAvailable)
    case Date(t) => b == a || b == Str(t)
    case DateTime(t) => b == a || b == Str(t)
    case _ => b == a
  }

  /** The dict branch leaves nothing unsafe behind. */
  lemma {:induction false} InDictMakesSafe(v: Value)
    ensures SafeInDict(InDict(v))
  {
    match v
    case Dict(m) =>
      forall k | k in m ensures SafeInDict(InDict(m[k])) {
        InDictMakesSafe(m[k]);
      }
    case _ =>
  }

  /** The dict branch changes a value exactly when something unsafe is left in it. */
  lemma {:induction false} InDictFixedIffSafe(v: Value)
    ensures InDict(v) == v <==> SafeInDict(v)
  {
    match v
    case Dict(m) =>
      forall k | k in m ensures InDict(m[k]) == m[k] <==> SafeInDict(m[k]) {
        InDictFixedIffSafe(m[k]);
      }
      if InDict(v) == v {
        forall k | k in m ensures InDict(m[k]) == m[k] {
          assert InDict(v).entries[k] == InDict(m[k]);
        }
      }
    case _ =>
  }

  /** Running the dict branch twice is running it once. */
  lemma InDictIdempotent(v: Value)
    ensures InDict(InDict(v)) == InDict(v)
  {
    InDictMakesSafe(v);
    InDictFixedIffSafe(InDict(v));
  }

  /** Every value has its own shape. */
  lemma {:induction false} SameShapeReflexive(v: Value)
    ensures SameShape(v, v)
  {
    match v
    case Dict(m) =>
      forall k | k in m ensures SameShape(m[k], m[k]) {
        SameShapeReflexive(m[k]);
      }
    case List(s) =>
      forall i | 0 <= i < |s| ensures SameShape(s[i], s[i]) {
        SameShapeReflexive(s[i]);
      }
    case _ =>
  }

  /** The dict branch keeps every key and nested dict, changing only ObjectId and temporal leaves. */
  lemma {:induction false} InDictSameShape(v: Value)
    ensures SameShape(v, InDict(v))
  {
    match v
    case Dict(m) =>
      forall k | k in m ensures SameShape(m[k], InDict(m[k])) {
        InDictSameShape(m[k]);
      }
    case List(_) =>
      SameShapeReflexive(v);
    case _ =>
  }

  /** The list branch leaves no ObjectId or datetime at the top of an element, and nothing unsafe below. */
  lemma InListElementMakesSafe(v: Value)
    ensures SafeInListElement(InListElement(v))
  {
    if v.Dict? {
      InDictMakesSafe(v);
    }
  }

  /** The list branch changes a value exactly when something it converts is left in it. */
  lemma InListElementFixedIffSafe(v: Value)
    ensures InListElement(v) == v <==> SafeInListElement(v)
  {
    if v.Dict? {
      InDictFixedIffSafe(v);
    }
  }

  /** Each branch, given a dict, keeps its keys; `_stringify_data` returns the same kind of value it was given. */
  lemma StringifySameShape(docs: Value)
    requires Stringify(docs).Ok?
    ensures SameShape(docs, Stringify(docs).value)
  {
    InDictSameShape(docs);
    if docs.List? {
      var out := Stringify(docs).value.items;
      forall i | 0 <= i < |docs.items| ensures SameShape(docs.items[i], out[i]) {
        var m := docs.items[i].entries;
        forall k | k in m ensures SameShape(m[k], InListElement(m[k])) {
          InDictSameShape(m[k]);
        }
      }
    }
  }

  /** What `_stringify_data` returns holds no value that a second call would convert. */
  lemma StringifyMakesSafe(docs: Value)
    requires Stringify(docs).Ok?
    ensures docs.Dict? ==> SafeInDict(Stringify(docs).value)
    ensures docs.List? ==> forall d :: d in Stringify(docs).value.items ==>
                             d.Dict? && forall k :: k in d.entries ==> SafeInListElement(d.entries[k])
  {
    InDictMakesSafe(docs);
    if docs.List? {
      forall d, k | d in docs.items && k in d.entries ensures SafeInListElement(InListElement(d.entries[k])) {
        InListElementMakesSafe(d.entries[k]);
      }
    }
  }

  /** Calling `_stringify_data` on its own result returns that result unchanged. */
  lemma StringifyIdempotent(docs: Value)
    requires Stringify(docs).Ok?
    ensures Stringify(Stringify(docs).value) == Stringify(docs)
  {
    var r := Stringify(docs).value;
    if docs.Dict? {
      InDictIdempotent(docs);
      assert Stringify(r) == Ok(InDict(r));
    } else {
      var out := r.items;
      forall i | 0 <= i < |out| ensures out[i].Dict? && StringifyElement(out[i].entries) == out[i].entries {
        var m := docs.items[i].entries;
        forall k | k in m ensures StringifyElement(out[i].entries)[k] == out[i].entries[k] {
          InListElementMakesSafe(m[k]);
          InListElementFixedIffSafe(InListElement(m[k]));
        }
      }
      assert out == seq(|out|, j requires 0 <= j < |out| && out[j].Dict? => Dict(StringifyElement(out[j].entries)));
    }
  }

  /** `_stringify_data` raises exactly on a non-list non-dict argument and on a list with a non-dict element. */
  lemma StringifyErrors(docs: Value, i: nat)
    ensures Stringify(docs) == Err(TypeError) <==> !docs.List? && !docs.Dict?
    ensures Stringify(docs) == Err(AttributeError(i)) <==>
            docs.List? && i < |docs.items| && !docs.items[i].Dict? &&
            forall j :: 0 <= j < i ==> docs.items[j].Dict?
  {
  }

  /** The two branches disagree on a plain date: the dict branch converts it, the list branch keeps it. */
  lemma DateAsymmetry(s: string)
    ensures Stringify(Dict(map["d" := Date(s)])) == Ok(Dict(map["d" := Str(s)]))
    ensures Stringify(List([Dict(map["d" := Date(s)])])) == Ok(List([Dict(map["d" := Date(s)])]))
  {
    var m := map["d" := Date(s)];
    assert StringifyDict(m) == map["d" := Str(s)];
    assert StringifyElement(m) == m;
    var items := [Dict(m)];
    assert items == seq(|items|, j requires 0 <= j < |items| && items[j].Dict? => Dict(StringifyElement(items[j].entries)));
  }

  /** The worked example: an id, a datetime and a string under the dict branch. */
  lemma DocumentExample(id: string)
    ensures var ts := "2020-01-01 00:00:00";
            Stringify(Dict(map["_id" := ObjId(id), "ts" := DateTime(ts), "name" := Str("x")]))
            == Ok(Dict(map["_id" := Str(NotAvailable), "ts" := Str(ts), "name" := Str("x")]))
  {
    var ts := "2020-01-01 00:00:00";
    var m := map["_id" := ObjId(id), "ts" := DateTime(ts), "name" := Str("x")];
    assert StringifyDict(m) == map["_id" := Str(NotAvailable), "ts" := Str(ts), "name" := Str("x")];
  }
}
