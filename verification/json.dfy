/** Decoded JSON values as the upstream service sends them, Python truthiness,
    and the per-field typing pydantic applies to a record. */
module Json {
  import opened Errors

  /** A JSON value. Object members keep the order of the document. */
  datatype Json =
    | JNull
    | JBool(b: bool)
    | JInt(i: int)
    | JStr(s: string)
    | JList(items: seq<Json>)
    | JObject(members: seq<(string, Json)>)

  /** A top-level JSON object, the `dict` handed to a pydantic model. */
  type Record = map<string, Json>

  /** No key occurs twice among the members. */
  predicate DistinctKeys(members: seq<(string, Json)>) {
    forall i, j :: 0 <= i < j < |members| ==> members[i].0 != members[j].0
  }

  /** Some member carries key `k`. */
  predicate HasKey(members: seq<(string, Json)>, k: string) {
    exists i :: 0 <= i < |members| && members[i].0 == k
  }

  /** The keys of the members, each once, in the order of first occurrence:
      the key order of the `dict` `json.loads` builds. */
  function FirstKeys(members: seq<(string, Json)>): (ks: seq<string>)
    ensures forall k :: k in ks <==> HasKey(members, k)
    ensures forall i, j :: 0 <= i < j < |ks| ==> ks[i] != ks[j]
    ensures |ks| <= |members|
    decreases |members|
  {
    if members == [] then []
    else
      var init := members[..|members| - 1];
      var k := members[|members| - 1].0;
      var ks := FirstKeys(init);
      assert forall i :: 0 <= i < |init| ==> init[i] == members[i];
      assert HasKey(members, k) by { assert members[|members| - 1].0 == k; }
      if k in ks then ks else ks + [k]
  }

  /** The value of the last member with key `k`: the one `json.loads` keeps
      for a repeated key. */
  function LastValue(members: seq<(string, Json)>, k: string): (v: Json)
    requires HasKey(members, k)
    ensures exists i :: 0 <= i < |members| && members[i] == (k, v) &&
              forall j :: i < j < |members| ==> members[j].0 != k
    decreases |members|
  {
    var init := members[..|members| - 1];
    var last := members[|members| - 1];
    if last.0 == k then last.1
    else
      assert forall i :: 0 <= i < |init| ==> init[i] == members[i];
      assert HasKey(init, k) by {
        var i :| 0 <= i < |members| && members[i].0 == k;
        assert i < |init|;
      }
      LastValue(init, k)
  }

  /** An object's members as `json.loads` keeps them: each key once, at the
      position of its first occurrence, with the value of its last. */
  function Collapse(members: seq<(string, Json)>): (r: seq<(string, Json)>)
    ensures DistinctKeys(r)
    ensures forall k :: HasKey(r, k) <==> HasKey(members, k)
    ensures forall i :: 0 <= i < |r| ==>
              exists j :: 0 <= j < |members| && members[j] == r[i] &&
                forall j' :: j < j' < |members| ==> members[j'].0 != r[i].0
  {
    var ks := FirstKeys(members);
    var r := seq(|ks|, i requires 0 <= i < |ks| => (ks[i], LastValue(members, ks[i])));
    assert forall k :: HasKey(r, k) <==> k in ks by {
      forall k ensures HasKey(r, k) <==> k in ks {
        if k in ks {
          var i :| 0 <= i < |ks| && ks[i] == k;
          assert r[i].0 == k;
        }
      }
    }
    r
  }

  /** Every object in `v`, at any depth, names each key once. */
  predicate DeepDistinct(v: Json)
    decreases v
  {
    match v
    case JList(items) => forall i :: 0 <= i < |items| ==> DeepDistinct(items[i])
    case JObject(members) =>
      DistinctKeys(members) && forall i :: 0 <= i < |members| ==> DeepDistinct(members[i].1)
    case _ => true
  }

  /** The value `json.loads` builds from a document: every object, at any
      depth, collapsed as `Collapse` says, lists and scalars as they are. */
  function Loads(v: Json): (r: Json)
    ensures r.JList? == v.JList? && r.JObject? == v.JObject?
    ensures !v.JList? && !v.JObject? ==> r == v
    ensures r.JList? ==> |r.items| == |v.items|
    ensures r.JObject? ==> DistinctKeys(r.members) && forall k :: HasKey(r.members, k) <==> HasKey(v.members, k)
    ensures DeepDistinct(r)
    decreases v
  {
    match v
    case JList(items) => JList(seq(|items|, i requires 0 <= i < |items| => Loads(items[i])))
    case JObject(members) =>
      var loaded := seq(|members|, i requires 0 <= i < |members| => (members[i].0, Loads(members[i].1)));
      assert forall i :: 0 <= i < |loaded| ==> DeepDistinct(loaded[i].1);
      var c := Collapse(loaded);
      assert forall i :: 0 <= i < |c| ==> DeepDistinct(c[i].1) by {
        forall i | 0 <= i < |c| ensures DeepDistinct(c[i].1) {
          var j :| 0 <= j < |loaded| && loaded[j] == c[i] &&
            forall j' :: j < j' < |loaded| ==> loaded[j'].0 != c[i].0;
        }
      }
      assert forall k :: HasKey(loaded, k) <==> HasKey(members, k) by {
        forall k ensures HasKey(loaded, k) <==> HasKey(members, k) {
          if HasKey(loaded, k) {
            var i :| 0 <= i < |loaded| && loaded[i].0 == k;
            assert members[i].0 == k;
          }
          if HasKey(members, k) {
            var i :| 0 <= i < |members| && members[i].0 == k;
            assert loaded[i].0 == k;
          }
        }
      }
      JObject(c)
    case _ => v
  }

  /** The `dict` `json.loads` builds from an object's members: a repeated key
      keeps the value of its last occurrence, and every value is loaded in
      turn. */
  function AsRecord(members: seq<(string, Json)>): (r: Record)
    ensures forall k :: k in r <==> exists i :: 0 <= i < |members| && members[i].0 == k
    ensures forall i :: 0 <= i < |members| && (forall j :: i < j < |members| ==> members[j].0 != members[i].0) ==>
              r[members[i].0] == Loads(members[i].1)
    decreases |members|
  {
    if members == [] then map[]
    else
      var init := members[..|members| - 1];
      var last := members[|members| - 1];
      assert members == init + [last];
      AsRecordStep(init, last, AsRecord(init));
      AsRecord(init)[last.0 := Loads(last.1)]
  }

  /** Adding one member to the end keeps both properties of `AsRecord`. */
  lemma AsRecordStep(init: seq<(string, Json)>, last: (string, Json), before: Record)
    requires forall k :: k in before <==> exists i :: 0 <= i < |init| && init[i].0 == k
    requires forall i :: 0 <= i < |init| && (forall j :: i < j < |init| ==> init[j].0 != init[i].0) ==>
               before[init[i].0] == Loads(init[i].1)
    ensures var members := init + [last];
            var r := before[last.0 := Loads(last.1)];
            && (forall k :: k in r <==> exists i :: 0 <= i < |members| && members[i].0 == k)
            && (forall i :: 0 <= i < |members| && (forall j :: i < j < |members| ==> members[j].0 != members[i].0) ==>
                  r[members[i].0] == Loads(members[i].1))
  {
    var members := init + [last];
    var r := before[last.0 := Loads(last.1)];
    forall k
      ensures k in r <==> exists i :: 0 <= i < |members| && members[i].0 == k
    {
      if k in before {
        var i :| 0 <= i < |init| && init[i].0 == k;
        assert members[i] == init[i];
      }
      if exists i :: 0 <= i < |members| && members[i].0 == k {
        var i :| 0 <= i < |members| && members[i].0 == k;
        if i < |init| {
          assert members[i] == init[i];
        }
      }
    }
    forall i | 0 <= i < |members| && (forall j :: i < j < |members| ==> members[j].0 != members[i].0)
      ensures r[members[i].0] == Loads(members[i].1)
    {
      if i < |init| {
        assert members[i] == init[i];
        assert members[|init|] == last;
        forall j | i < j < |init|
          ensures init[j].0 != init[i].0
        {
          assert members[j] == init[j];
        }
      }
    }
  }

  /** The record built from an object holds, under a key that occurs, the
      loaded value of its last occurrence. */
  lemma RecordValue(members: seq<(string, Json)>, k: string)
    requires HasKey(members, k)
    ensures k in AsRecord(members) && AsRecord(members)[k] == Loads(LastValue(members, k))
  {
    var i :| 0 <= i < |members| && members[i] == (k, LastValue(members, k)) &&
             forall j :: i < j < |members| ==> members[j].0 != k;
  }

  /** An object that gives one key two scalar values loads to the key with
      the second value. */
  lemma LoadsScalarPair(k: string, a: Json, b: Json)
    requires !a.JList? && !a.JObject? && !b.JList? && !b.JObject?
    ensures Loads(JObject([(k, a), (k, b)])) == JObject([(k, b)])
  {
    var members := [(k, a), (k, b)];
    assert FirstKeys(members) == [k] by {
      assert members[..1] == [(k, a)];
      assert FirstKeys([(k, a)]) == [k] by {
        assert [(k, a)][..0] == [];
      }
    }
    assert LastValue(members, k) == b;
    assert Collapse(members) == [(k, b)];
    assert seq(|members|, i requires 0 <= i < |members| => (members[i].0, Loads(members[i].1))) == members;
  }

  /** Whether `len` accepts the decoded value: a list, an object or a string. */
  predicate Sized(v: Json) {
    v.JList? || v.JObject? || v.JStr?
  }

  /** Python truthiness of the decoded value. */
  predicate Truthy(v: Json) {
    match v
    case JNull => false
    case JBool(b) => b
    case JInt(i) => i != 0
    case JStr(s) => |s| > 0
    case JList(items) => |items| > 0
    case JObject(members) => |members| > 0
  }

  /** `record.get(key)`, with None for an absent key. */
  function Get(r: Record, key: string): Option<Json> {
    if key in r then Some(r[key]) else None
  }

  /** The value pydantic reads for a field with an alias when
      `allow_population_by_field_name` is set: the alias first, then the field's own name. */
  function Aliased(r: Record, alias: string, name: string): Option<Json> {
    if alias in r then Some(r[alias]) else Get(r, name)
  }

  /** The shapes a field's value may take, `None` standing for an absent key. */
  predicate IsInt(v: Option<Json>) { v.Some? && v.value.JInt? }
  predicate IsStr(v: Option<Json>) { v.Some? && v.value.JStr? }
  predicate IsBool(v: Option<Json>) { v.Some? && v.value.JBool? }
  predicate IsIntOrNull(v: Option<Json>) { v.Some? && (v.value.JInt? || v.value.JNull?) }
  predicate IsIntMap(v: Option<Json>) {
    v.Some? && v.value.JObject? && forall m :: m in v.value.members ==> m.1.JInt?
  }
  /** Absent, null or a string: what a `str | None` field admits. */
  predicate MaybeStr(v: Option<Json>) { v.None? || v.value.JNull? || v.value.JStr? }
  /** Absent, null or an integer: what an `int | None` field admits. */
  predicate MaybeInt(v: Option<Json>) { v.None? || v.value.JNull? || v.value.JInt? }

  /** A required `str` field. */
  function RequiredStr(v: Option<Json>): (r: Result<string>)
    ensures r.Ok? <==> v.Some? && v.value.JStr?
    ensures r.Ok? ==> v == Some(JStr(r.value))
  {
    if v.Some? && v.value.JStr? then Ok(v.value.s) else Rejected()
  }

  /** A `str | None` field without default: absent and null both give None. */
  function OptionalStr(v: Option<Json>): (r: Result<Option<string>>)
    ensures r.Ok? <==> v.None? || v.value.JNull? || v.value.JStr?
    ensures r == Ok(None) <==> v.None? || v.value.JNull?
  {
    if v.None? || v.value.JNull? then Ok(None)
    else if v.value.JStr? then Ok(Some(v.value.s))
    else Rejected()
  }

  /** A required `bool` field. */
  function RequiredBool(v: Option<Json>): (r: Result<bool>)
    ensures r.Ok? <==> v.Some? && v.value.JBool?
    ensures r.Ok? ==> v == Some(JBool(r.value))
  {
    if v.Some? && v.value.JBool? then Ok(v.value.b) else Rejected()
  }

  /** A required `int` field. */
  function RequiredInt(v: Option<Json>): (r: Result<int>)
    ensures r.Ok? <==> v.Some? && v.value.JInt?
    ensures r.Ok? ==> v == Some(JInt(r.value))
  {
    if v.Some? && v.value.JInt? then Ok(v.value.i) else Rejected()
  }

  /** An `int | None` field without default: absent and null both give None. */
  function OptionalInt(v: Option<Json>): (r: Result<Option<int>>)
    ensures r.Ok? <==> v.None? || v.value.JNull? || v.value.JInt?
    ensures r == Ok(None) <==> v.None? || v.value.JNull?
  {
    if v.None? || v.value.JNull? then Ok(None)
    else if v.value.JInt? then Ok(Some(v.value.i))
    else Rejected()
  }

  /** An `int | None = Field(...)` field: it may be null but must be present. */
  function NullableInt(v: Option<Json>): (r: Result<Option<int>>)
    ensures r.Ok? <==> v.Some? && (v.value.JNull? || v.value.JInt?)
  {
    if v.None? then Rejected() else OptionalInt(v)
  }

  /** An `Any = Field(...)` field: any value, null included, but it must be present. */
  function RequiredAny(v: Option<Json>): (r: Result<Json>)
    ensures r.Ok? <==> v.Some?
  {
    if v.Some? then Ok(v.value) else Rejected()
  }

  /** A required `dict[str, int]` field, its members in document order. */
  function RequiredIntMap(v: Option<Json>): (r: Result<seq<(string, int)>>)
    ensures r.Ok? <==> v.Some? && v.value.JObject? && forall m :: m in v.value.members ==> m.1.JInt?
    ensures r.Ok? ==> |r.value| == |v.value.members|
    ensures r.Ok? ==> forall i :: 0 <= i < |r.value| ==>
                        v.value.members[i] == (r.value[i].0, JInt(r.value[i].1))
  {
    if v.Some? && v.value.JObject? && forall m :: m in v.value.members ==> m.1.JInt? then
      Ok(seq(|v.value.members|, i requires 0 <= i < |v.value.members| =>
        (v.value.members[i].0, v.value.members[i].1.i)))
    else Rejected()
  }
}
