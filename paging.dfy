/**
 * The schema-checked records of app/helpers/paging.py: a `Base` object is a dict whose keys are
 * the annotated fields of its class, filled from class defaults and keyword arguments, with an
 * `AttributeError` for an unknown argument or a required field left out.
 */
module Paging {
  import opened Wrappers
  import opened PyData

  /**
   * What `Base.__init__` reads from a class: its name, its annotated fields in declaration order,
   * and the class attributes `dir()` lists, in that (sorted) order, with their values.
   */
  datatype Schema = Schema(className: string, annotations: seq<string>, classAttributes: Dict)

  /** Names are listed once, as Python's annotations and `dir()` do. */
  ghost predicate WellFormed(s: Schema) {
    DistinctKeys(s.classAttributes) && forall i, j :: 0 <= i < j < |s.annotations| ==> s.annotations[i] != s.annotations[j]
  }

  /** The `AttributeError`s `Base.__init__` raises. */
  datatype SchemaError =
    | NoSuchAttribute(className: string, key: string)   // paging.py:36
    | MissingAttribute(className: string, key: string)  // paging.py:45

  /** The exception's message; `repr` of the key is written with single quotes. */
  function Message(e: SchemaError): string {
    match e
    case NoSuchAttribute(c, k) => c + " does not have attribute: '" + k + "'"
    case MissingAttribute(c, k) => c + " missing required attribute: '" + k + "'"
  }

  /** `PagingInfo` (paging.py:72-85): four fields, all with defaults. */
  const PAGING_INFO: Schema := Schema(
    "PagingInfo",
    ["page_count", "page_number", "page_size", "total_record_count"],
    [("page_count", VInt(1)), ("page_number", VInt(1)), ("page_size", VInt(10)), ("total_record_count", VInt(1))])

  /** `Paging` (paging.py:88-98): two fields without defaults, and a method. */
  const PAGING: Schema := Schema("Paging", ["data", "paging"], [("to_response", VObject("function"))])

  // _generate_default_values (paging.py:20-25)

  /** The dict after `_generate_default_values`: each annotated class attribute, in `dir()` order. */
  function DefaultValues(attrs: Dict, annotations: seq<string>): Dict {
    if attrs == [] then []
    else
      var prev := DefaultValues(attrs[..|attrs| - 1], annotations);
      var (k, v) := attrs[|attrs| - 1];
      if k in annotations then DictSet(prev, k, v) else prev
  }

  function Defaults(s: Schema): Dict {
    DefaultValues(s.classAttributes, s.annotations)
  }

  /** The defaults are exactly the annotated fields that have a class value, with that value. */
  lemma {:induction false} DefaultValuesSpec(attrs: Dict, annotations: seq<string>)
    requires DistinctKeys(attrs)
    ensures var d := DefaultValues(attrs, annotations);
            DistinctKeys(d) &&
            (forall k :: HasKey(d, k) <==> k in annotations && HasKey(attrs, k)) &&
            (forall k :: HasKey(d, k) ==> Get(d, k) == Get(attrs, k))
    decreases |attrs|
  {
    if attrs != [] {
      var front := attrs[..|attrs| - 1];
      var last := attrs[|attrs| - 1];
      assert attrs == front + [last];
      var prev := DefaultValues(front, annotations);
      assert DefaultValues(attrs, annotations) == if last.0 in annotations then DictSet(prev, last.0, last.1) else prev;
      DefaultValuesSpec(front, annotations);
      HasKeySnoc(front, last);
      forall k | HasKey(front, k) ensures IndexOf(attrs, k) == IndexOf(front, k) {
        IndexOfPrefix(front, [last], k);
      }
      assert !HasKey(front, last.0);
      if HasKey(attrs, last.0) {
        assert Get(attrs, last.0) == last.1 by {
          assert attrs[|attrs| - 1] == last;
        }
      }
    }
  }

  // _generate_id (paging.py:27-30)

  /** The keyword arguments after `_generate_id`: an annotated "id" that was not given gets a new one. */
  function WithId(annotations: seq<string>, kwargs: Dict, newId: string): Dict {
    if "id" in annotations && !HasKey(kwargs, "id") then DictSet(kwargs, "id", VStr(newId)) else kwargs
  }

  // _check_required_attributes (paging.py:32-36)

  /** The first argument that is neither an annotated field nor already in the dict. */
  function FirstUnknown(annotations: seq<string>, d: Dict, kwargs: Dict): (r: Option<string>)
    ensures r.None? <==> forall i :: 0 <= i < |kwargs| ==> kwargs[i].0 in annotations || HasKey(d, kwargs[i].0)
    ensures r.Some? ==> HasKey(kwargs, r.value) && r.value !in annotations && !HasKey(d, r.value)
  {
    if kwargs == [] then None
    else if kwargs[0].0 !in annotations && !HasKey(d, kwargs[0].0) then Some(kwargs[0].0)
    else
      var r := FirstUnknown(annotations, d, kwargs[1..]);
      assert forall i :: 1 <= i < |kwargs| ==> kwargs[i] == kwargs[1..][i - 1];
      assert r.Some? ==> Keys(kwargs) == [kwargs[0].0] + Keys(kwargs[1..]);
      r
  }

  /** Every argument before position `i` is an annotated field or already in the dict. */
  predicate KnownBefore(annotations: seq<string>, d: Dict, kwargs: Dict, i: nat)
    requires i <= |kwargs|
  {
    forall j :: 0 <= j < i ==> kwargs[j].0 in annotations || HasKey(d, kwargs[j].0)
  }

  /** The argument named is the first offending one in argument order, as the error message reports it. */
  lemma {:induction false} FirstUnknownIsFirst(annotations: seq<string>, d: Dict, kwargs: Dict)
    ensures var r := FirstUnknown(annotations, d, kwargs);
            r.Some? ==> exists i :: 0 <= i < |kwargs| && kwargs[i].0 == r.value && KnownBefore(annotations, d, kwargs, i)
    decreases |kwargs|
  {
    var r := FirstUnknown(annotations, d, kwargs);
    if kwargs != [] && r.Some? {
      if kwargs[0].0 !in annotations && !HasKey(d, kwargs[0].0) {
        assert KnownBefore(annotations, d, kwargs, 0);
      } else {
        var rest := kwargs[1..];
        assert r == FirstUnknown(annotations, d, rest);
        FirstUnknownIsFirst(annotations, d, rest);
        var i :| 0 <= i < |rest| && rest[i].0 == r.value && KnownBefore(annotations, d, rest, i);
        assert kwargs[i + 1] == rest[i];
        assert KnownBefore(annotations, d, kwargs, i + 1) by {
          forall j | 0 <= j < i + 1 ensures kwargs[j].0 in annotations || HasKey(d, kwargs[j].0) {
            if j > 0 {
              assert kwargs[j] == rest[j - 1];
            }
          }
        }
      }
    }
  }

  // _get_attributes (paging.py:38-45)

  /** The dict after `_get_attributes` over `fields`: a given value is taken, a field neither given nor defaulted raises. */
  function GetFields(className: string, fields: seq<string>, d: Dict, kwargs: Dict): Result<Dict, SchemaError> {
    if fields == [] then Success(d)
    else
      match GetFields(className, fields[..|fields| - 1], d, kwargs)
      case Failure(e) => Failure(e)
      case Success(p) =>
        var f := fields[|fields| - 1];
        if HasKey(kwargs, f) then Success(DictSet(p, f, Get(kwargs, f)))
        else if HasKey(p, f) then Success(p)
        else Failure(MissingAttribute(className, f))
  }

  /** What `GetFieldsSpec` promises about a successful result `r`. */
  ghost predicate FieldsTaken(fields: seq<string>, d: Dict, kwargs: Dict, r: Dict) {
    (DistinctKeys(d) ==> DistinctKeys(r)) &&
    (forall k :: HasKey(r, k) <==> HasKey(d, k) || k in fields) &&
    (forall k :: k in fields && HasKey(kwargs, k) ==> Get(r, k) == Get(kwargs, k)) &&
    (forall k :: HasKey(d, k) && !(k in fields && HasKey(kwargs, k)) ==> Get(r, k) == Get(d, k))
  }

  /**
   * `_get_attributes` succeeds exactly when every field is given or already in the dict; then
   * a given value wins over a default. A failure names a field that is neither.
   */
  lemma {:induction false} GetFieldsSpec(className: string, fields: seq<string>, d: Dict, kwargs: Dict)
    ensures var r := GetFields(className, fields, d, kwargs);
            (r.Success? <==> forall f :: f in fields ==> HasKey(kwargs, f) || HasKey(d, f)) &&
            (r.Success? ==> FieldsTaken(fields, d, kwargs, r.value)) &&
            (r.Failure? ==> r.error == MissingAttribute(className, r.error.key) && r.error.key in fields &&
                            !HasKey(kwargs, r.error.key) && !HasKey(d, r.error.key))
    decreases |fields|
  {
    if fields != [] {
      var front := fields[..|fields| - 1];
      var f := fields[|fields| - 1];
      assert fields == front + [f];
      GetFieldsSpec(className, front, d, kwargs);
    }
  }

  // Base.__init__ (paging.py:13-18)

  /** `cls(**kwargs)`: the object's dict, or the `AttributeError` raised. */
  function Construct(s: Schema, kwargs: Dict, newId: string): Result<Dict, SchemaError> {
    var d := Defaults(s);
    var kw := WithId(s.annotations, kwargs, newId);
    match FirstUnknown(s.annotations, d, kw)
    case Some(k) => Failure(NoSuchAttribute(s.className, k))
    case None => GetFields(s.className, s.annotations, d, kw)
  }

  /** `_generate_default_values`, by its loop. */
  method GenerateDefaultValues(s: Schema) returns (d: Dict)
    ensures d == Defaults(s)
  {
    d := [];
    for i := 0 to |s.classAttributes|
      invariant d == DefaultValues(s.classAttributes[..i], s.annotations)
    {
      assert s.classAttributes[..i + 1][..i] == s.classAttributes[..i];
      var (key, value) := s.classAttributes[i];
      if key in s.annotations {
        d := DictSet(d, key, value);
      }
    }
    assert s.classAttributes[..|s.classAttributes|] == s.classAttributes;
  }

  /** `_check_required_attributes`, by its loop: the first offending key, if any. */
  method CheckRequiredAttributes(annotations: seq<string>, d: Dict, kwargs: Dict) returns (unknown: Option<string>)
    ensures unknown == FirstUnknown(annotations, d, kwargs)
  {
    for i := 0 to |kwargs|
      invariant FirstUnknown(annotations, d, kwargs) == FirstUnknown(annotations, d, kwargs[i..])
    {
      assert kwargs[i..][0] == kwargs[i] && kwargs[i..][1..] == kwargs[i + 1..];
      if kwargs[i].0 !in annotations && !HasKey(d, kwargs[i].0) {
        return Some(kwargs[i].0);
      }
    }
    return None;
  }

  /** `_get_attributes`, by its loop. */
  method GetAttributes(className: string, fields: seq<string>, d: Dict, kwargs: Dict)
    returns (r: Result<Dict, SchemaError>)
    ensures r == GetFields(className, fields, d, kwargs)
  {
    var current := d;
    for i := 0 to |fields|
      invariant GetFields(className, fields[..i], d, kwargs) == Success(current)
    {
      assert fields[..i + 1][..i] == fields[..i];
      if HasKey(kwargs, fields[i]) {
        current := DictSet(current, fields[i], Get(kwargs, fields[i]));
      } else if !HasKey(current, fields[i]) {
        GetFieldsStops(className, fields, d, kwargs, i + 1);
        return Failure(MissingAttribute(className, fields[i]));
      }
    }
    assert fields[..|fields|] == fields;
    r := Success(current);
  }

  lemma {:induction false} GetFieldsStops(className: string, fields: seq<string>, d: Dict, kwargs: Dict, n: nat)
    requires n <= |fields| && GetFields(className, fields[..n], d, kwargs).Failure?
    ensures GetFields(className, fields, d, kwargs) == GetFields(className, fields[..n], d, kwargs)
    decreases |fields| - n
  {
    if n < |fields| {
      assert fields[..n + 1][..n] == fields[..n];
      GetFieldsStops(className, fields, d, kwargs, n + 1);
    } else {
      assert fields[..n] == fields;
    }
  }

  /** `Base.__init__(**kwargs)`, step by step. */
  method New(s: Schema, kwargs: Dict, newId: string) returns (r: Result<Dict, SchemaError>)
    ensures r == Construct(s, kwargs, newId)
  {
    var d := GenerateDefaultValues(s);
    var kw := kwargs;
    if "id" in s.annotations && !HasKey(kw, "id") {
      kw := DictSet(kw, "id", VStr(newId));
    }
    var unknown := CheckRequiredAttributes(s.annotations, d, kw);
    if unknown.Some? {
      return Failure(NoSuchAttribute(s.className, unknown.value));
    }
    r := GetAttributes(s.className, s.annotations, d, kw);
  }

  // Properties of construction

  /** A keyword argument that is not an annotated field raises `AttributeError` naming it. */
  lemma ConstructUnknown(s: Schema, kwargs: Dict, newId: string)
    requires WellFormed(s)
    ensures var r := Construct(s, kwargs, newId);
            (r.Failure? && r.error.NoSuchAttribute?) <==> exists i :: 0 <= i < |kwargs| && kwargs[i].0 !in s.annotations
    ensures var r := Construct(s, kwargs, newId);
            r.Failure? && r.error.NoSuchAttribute? ==> HasKey(kwargs, r.error.key) && r.error.key !in s.annotations
  {
    DefaultValuesSpec(s.classAttributes, s.annotations);
    var kw := WithId(s.annotations, kwargs, newId);
    HasKeySnoc(kwargs, ("id", VStr(newId)));
    if exists i :: 0 <= i < |kwargs| && kwargs[i].0 !in s.annotations {
      var i :| 0 <= i < |kwargs| && kwargs[i].0 !in s.annotations;
      assert Keys(kwargs)[i] == kwargs[i].0;
      var j := IndexOf(kw, kwargs[i].0);
      assert kw[j].0 !in s.annotations && !HasKey(Defaults(s), kw[j].0);
    }
    GetFieldsSpec(s.className, s.annotations, Defaults(s), kw);
    if FirstUnknown(s.annotations, Defaults(s), kw).Some? {
      var k := FirstUnknown(s.annotations, Defaults(s), kw).value;
      var i := IndexOf(kwargs, k);
      assert kwargs[i].0 == k;
    }
  }

  /**
   * Once every argument is an annotated field, construction succeeds exactly when each field
   * without a class default (other than a generated id) is given; otherwise it raises
   * `AttributeError` naming such a field.
   */
  lemma ConstructMissing(s: Schema, kwargs: Dict, newId: string)
    requires WellFormed(s)
    requires forall i :: 0 <= i < |kwargs| ==> kwargs[i].0 in s.annotations
    ensures var r := Construct(s, kwargs, newId);
            (r.Success? <==> forall f :: f in s.annotations ==> HasKey(kwargs, f) || HasKey(s.classAttributes, f) || f == "id") &&
            (r.Failure? ==> r.error == MissingAttribute(s.className, r.error.key) && r.error.key in s.annotations &&
                            !HasKey(kwargs, r.error.key) && !HasKey(s.classAttributes, r.error.key) && r.error.key != "id")
  {
    DefaultValuesSpec(s.classAttributes, s.annotations);
    var kw := WithId(s.annotations, kwargs, newId);
    HasKeySnoc(kwargs, ("id", VStr(newId)));
    assert FirstUnknown(s.annotations, Defaults(s), kw).None? by {
      forall i | 0 <= i < |kw| ensures kw[i].0 in s.annotations {
        if i < |kwargs| {
          assert kw[i] == kwargs[i];
        }
      }
    }
    GetFieldsSpec(s.className, s.annotations, Defaults(s), kw);
  }

  /**
   * A constructed object holds exactly the annotated fields: a given value, else the generated
   * id, else the class default.
   */
  lemma ConstructFields(s: Schema, kwargs: Dict, newId: string)
    requires WellFormed(s) && DistinctKeys(kwargs)
    requires Construct(s, kwargs, newId).Success?
    ensures var obj := Construct(s, kwargs, newId).value;
            DistinctKeys(obj) &&
            (forall k :: HasKey(obj, k) <==> k in s.annotations) &&
            (forall k :: k in s.annotations && HasKey(kwargs, k) ==> Get(obj, k) == Get(kwargs, k)) &&
            (forall k :: k in s.annotations && !HasKey(kwargs, k) && k == "id" ==> Get(obj, k) == VStr(newId)) &&
            (forall k :: k in s.annotations && !HasKey(kwargs, k) && k != "id" ==>
               HasKey(s.classAttributes, k) && Get(obj, k) == Get(s.classAttributes, k))
  {
    var d := Defaults(s);
    DefaultValuesSpec(s.classAttributes, s.annotations);
    var kw := WithId(s.annotations, kwargs, newId);
    GetFieldsSpec(s.className, s.annotations, d, kw);
    if "id" in s.annotations && !HasKey(kwargs, "id") {
      assert kw == DictSet(kwargs, "id", VStr(newId));
    }
  }

  /** Setting a new key appends it. */
  lemma DictSetNew(d: Dict, k: string, v: Value)
    requires !HasKey(d, k)
    ensures DictSet(d, k, v) == d + [(k, v)]
  {
  }

  /** When every class attribute is an annotated field, the defaults are the class attributes, in order. */
  lemma {:induction false} DefaultValuesAll(attrs: Dict, annotations: seq<string>)
    requires DistinctKeys(attrs) && forall i :: 0 <= i < |attrs| ==> attrs[i].0 in annotations
    ensures DefaultValues(attrs, annotations) == attrs
    decreases |attrs|
  {
    if attrs != [] {
      var front := attrs[..|attrs| - 1];
      var last := attrs[|attrs| - 1];
      assert attrs == front + [last];
      DefaultValuesAll(front, annotations);
      assert !HasKey(front, last.0) by {
        forall i | 0 <= i < |front| ensures Keys(front)[i] != last.0 {
          assert front[i] == attrs[i];
        }
      }
      DictSetNew(front, last.0, last.1);
    }
  }

  /** Every field of `PagingInfo` has a class default, listed once. */
  lemma PagingInfoShape()
    ensures var attrs := PAGING_INFO.classAttributes;
            Keys(attrs) == PAGING_INFO.annotations && DistinctKeys(attrs) && "id" !in PAGING_INFO.annotations &&
            (forall i :: 0 <= i < |attrs| ==> attrs[i].0 in PAGING_INFO.annotations) &&
            (forall f :: f in PAGING_INFO.annotations ==> HasKey(attrs, f))
  {
    assert Keys(PAGING_INFO.classAttributes) == PAGING_INFO.annotations;
  }

  /** `PagingInfo()` holds the four defaults, in declaration order. */
  lemma PagingInfoDefaults(newId: string)
    ensures Construct(PAGING_INFO, [], newId) ==
            Success([("page_count", VInt(1)), ("page_number", VInt(1)), ("page_size", VInt(10)), ("total_record_count", VInt(1))])
  {
    var attrs := PAGING_INFO.classAttributes;
    var fs := PAGING_INFO.annotations;
    PagingInfoShape();
    DefaultValuesAll(attrs, fs);
    GetFieldsUnchanged(PAGING_INFO.className, fs, attrs);
    assert WithId(fs, [], newId) == [];
    assert FirstUnknown(fs, attrs, []) == None;
    assert Construct(PAGING_INFO, [], newId) == GetFields(PAGING_INFO.className, fs, attrs, []);
  }

  /** Fields that are all defaulted and none given leave the defaults as they are. */
  lemma {:induction false} GetFieldsUnchanged(className: string, fields: seq<string>, d: Dict)
    requires forall f :: f in fields ==> HasKey(d, f)
    ensures GetFields(className, fields, d, []) == Success(d)
    decreases |fields|
  {
    if fields != [] {
      var front := fields[..|fields| - 1];
      assert forall f :: f in front ==> f in fields;
      GetFieldsUnchanged(className, front, d);
      assert !HasKey([], fields[|fields| - 1]);
    }
  }

  /** `Paging(...)` is built exactly when `data` and `paging` are both given and nothing else is. */
  lemma PagingRequiresDataAndPaging(kwargs: Dict, newId: string)
    ensures Construct(PAGING, kwargs, newId).Success? <==>
            HasKey(kwargs, "data") && HasKey(kwargs, "paging") &&
            forall i :: 0 <= i < |kwargs| ==> kwargs[i].0 in PAGING.annotations
  {
    assert WellFormed(PAGING);
    assert !HasKey(PAGING.classAttributes, "data") && !HasKey(PAGING.classAttributes, "paging");
    ConstructUnknown(PAGING, kwargs, newId);
    if forall i :: 0 <= i < |kwargs| ==> kwargs[i].0 in PAGING.annotations {
      ConstructMissing(PAGING, kwargs, newId);
    }
  }

  // to_response and __deepcopy__ (paging.py:65-66, 97-98)

  /**
   * `paging.to_response()`: a dict of exactly `data` and `paging`; reading a field the object
   * does not hold raises `AttributeError`.
   */
  function ToResponse(obj: Dict): (r: Result<Dict, SchemaError>)
    ensures r.Success? <==> HasKey(obj, "data") && HasKey(obj, "paging")
    ensures r.Success? ==> Keys(r.value) == ["data", "paging"] &&
                           Get(r.value, "data") == Get(obj, "data") && Get(r.value, "paging") == Get(obj, "paging")
    ensures r.Failure? ==> r.error == NoSuchAttribute("Paging", if HasKey(obj, "data") then "paging" else "data")
  {
    if !HasKey(obj, "data") then Failure(NoSuchAttribute("Paging", "data"))
    else if !HasKey(obj, "paging") then Failure(NoSuchAttribute("Paging", "paging"))
    else
      var r := [("data", Get(obj, "data")), ("paging", Get(obj, "paging"))];
      assert Keys(r) == ["data", "paging"];
      Success(r)
  }

  /** `copy.deepcopy(obj)`: a new object of the same class built from a copy of its items. */
  function DeepCopy(s: Schema, obj: Dict, newId: string): Result<Dict, SchemaError> {
    Construct(s, obj, newId)
  }

  /** Python dict equality: the same keys with the same values, in any order. */
  ghost predicate SameItems(a: Dict, b: Dict) {
    (forall k :: HasKey(a, k) <==> HasKey(b, k)) && forall k :: HasKey(a, k) ==> Get(a, k) == Get(b, k)
  }

  /** Deep-copying a constructed object always succeeds and gives an equal object. */
  lemma DeepCopyRoundTrip(s: Schema, kwargs: Dict, newId: string, copyId: string)
    requires WellFormed(s) && DistinctKeys(kwargs)
    requires Construct(s, kwargs, newId).Success?
    ensures var obj := Construct(s, kwargs, newId).value;
            DeepCopy(s, obj, copyId).Success? && SameItems(DeepCopy(s, obj, copyId).value, obj)
  {
    var obj := Construct(s, kwargs, newId).value;
    ConstructFields(s, kwargs, newId);
    assert forall i :: 0 <= i < |obj| ==> obj[i].0 in s.annotations by {
      forall i | 0 <= i < |obj| ensures obj[i].0 in s.annotations {
        assert Keys(obj)[i] == obj[i].0;
      }
    }
    ConstructUnknown(s, obj, copyId);
    ConstructMissing(s, obj, copyId);
    ConstructFields(s, obj, copyId);
  }
}
