/** JSON values as the program holds them: objects are listed by ascending key. */
module Json {
  import opened Prelude

  /** Numbers keep whether they were written as a nonnegative integer, a negative integer or otherwise. */
  datatype Number = PosInt(n: U64) | NegInt(i: int) | Float(r: real)

  datatype Json =
    | Null
    | Bool(b: bool)
    | Num(number: Number)
    | Str(text: string)
    | Arr(items: seq<Json>)
    | Obj(fields: seq<Field>)

  datatype Field = Field(key: string, value: Json)

  function GetField(fields: seq<Field>, key: string): Option<Json> {
    if fields == [] then None
    else if fields[0].key == key then Some(fields[0].value)
    else GetField(fields[1..], key)
  }

  /** The member of an object; nothing for other values. */
  function Get(v: Json, key: string): Option<Json> {
    if v.Obj? then GetField(v.fields, key) else None
  }

  function GetIn(v: Option<Json>, key: string): Option<Json> {
    if v.Some? then Get(v.value, key) else None
  }

  function AsStr(v: Option<Json>): Option<string> {
    if v.Some? && v.value.Str? then Some(v.value.text) else None
  }

  function AsU64(v: Option<Json>): Option<U64> {
    if v.Some? && v.value.Num? && v.value.number.PosInt? then Some(v.value.number.n) else None
  }

  /** The elements of an array; none for other values. */
  function Elements(v: Option<Json>): seq<Json> {
    if v.Some? && v.value.Arr? then v.value.items else []
  }

  // ----- what the accessors read -----

  ghost predicate DistinctKeys(fields: seq<Field>) {
    forall i, j | 0 <= i < j < |fields| :: fields[i].key != fields[j].key
  }

  lemma {:induction false} GetFieldIs(fields: seq<Field>, key: string)
    requires DistinctKeys(fields)
    ensures forall value :: GetField(fields, key) == Some(value) <==> Field(key, value) in fields
  {
    if fields != [] {
      assert fields == [fields[0]] + fields[1..];
      GetFieldIs(fields[1..], key);
      OtherKeys(fields);
    }
  }

  lemma OtherKeys(fields: seq<Field>)
    requires fields != [] && DistinctKeys(fields)
    ensures forall f | f in fields[1..] :: f.key != fields[0].key
  {
    forall f | f in fields[1..]
      ensures f.key != fields[0].key
    {
      var j :| 0 <= j < |fields[1..]| && fields[1..][j] == f;
      assert fields[j + 1] == f;
    }
  }

  /** A member is found exactly if the value is an object that has it. */
  lemma GetIs(v: Json, key: string)
    requires v.Obj? ==> DistinctKeys(v.fields)
    ensures forall value :: Get(v, key) == Some(value) <==> v.Obj? && Field(key, value) in v.fields
    ensures forall outer :: GetIn(Some(outer), key) == Get(outer, key)
    ensures GetIn(None, key) == None
  {
    if v.Obj? {
      GetFieldIs(v.fields, key);
    }
  }

  /** Strings, counts and elements are read from values of just the right kind. */
  lemma ReadsAre(v: Json)
    ensures forall text :: AsStr(Some(v)) == Some(text) <==> v == Str(text)
    ensures forall n: U64 :: AsU64(Some(v)) == Some(n) <==> v == Num(PosInt(n))
    ensures v.Arr? ==> Elements(Some(v)) == v.items
    ensures !v.Arr? ==> Elements(Some(v)) == []
    ensures AsStr(None) == None && AsU64(None) == None && Elements(None) == []
  {
  }
}
