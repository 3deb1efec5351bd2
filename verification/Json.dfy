/** Decoded JSON values, seen through the one traversal order every toolkit walker uses:
    the items of an object in insertion order, or the enumerated items of a list. */
module Json {

  datatype Option<+T> = None | Some(value: T)

  datatype Result<+T> = Ok(value: T) | Err

  datatype Json =
    | Null
    | Bool(flag: bool)
    | Int(number: int)
    | Float(approx: real)
    | Str(text: string)
    | Arr(items: seq<Json>)
    | Obj(fields: seq<Field>)
  {
    predicate Container() { Arr? || Obj? }
  }

  datatype Field = Field(key: string, value: Json)

  /** One component of a result path: an object key or a list position. */
  datatype Step = Key(name: string) | Index(position: nat)

  type Path = seq<Step>

  function Width(v: Json): nat
    requires v.Container()
  {
    if v.Arr? then |v.items| else |v.fields|
  }

  function StepAt(v: Json, i: nat): Step
    requires v.Container() && i < Width(v)
  {
    if v.Arr? then Index(i) else Key(v.fields[i].key)
  }

  function ChildAt(v: Json, i: nat): (child: Json)
    requires v.Container() && i < Width(v)
    ensures child < v
  {
    if v.Arr? then v.items[i]
    else assert v.fields[i] in v.fields; v.fields[i].value
  }

  /** Objects come from a decoder that rejects repeated keys, at every depth. */
  predicate UniqueKeys(v: Json)
    decreases v
  {
    v.Container() ==>
      && (forall i, j | 0 <= i < j < Width(v) :: StepAt(v, i) != StepAt(v, j))
      && (forall i | 0 <= i < Width(v) :: UniqueKeys(ChildAt(v, i)))
  }

  /** The number of values in a tree, counting the root. */
  function Size(v: Json): (n: nat)
    ensures n >= 1
    decreases v, 1
  {
    if v.Container() then 1 + KidsSize(v, Width(v)) else 1
  }

  /** The number of values below the first `n` children. */
  function KidsSize(v: Json, n: nat): nat
    requires v.Container() && n <= Width(v)
    decreases v, 0, n
  {
    if n == 0 then 0 else KidsSize(v, n - 1) + Size(ChildAt(v, n - 1))
  }

  /** `dict.get`: the value under a key, if the object has it. */
  function Get(v: Json, key: string): Option<Json>
    requires v.Obj?
  {
    Find(v.fields, key)
  }

  function Find(fields: seq<Field>, key: string): Option<Json>
  {
    if fields == [] then None
    else if fields[0].key == key then Some(fields[0].value)
    else Find(fields[1..], key)
  }

  /** `dict.get` does not tell a missing value from `null`. */
  function GetOrNull(v: Json, key: string): Json {
    if v.Obj? then
      match Get(v, key)
      case Some(w) => w
      case None => Null
    else Null
  }

  lemma {:induction false} FindUnique(fields: seq<Field>, k: nat)
    requires k < |fields| && forall i | 0 <= i < k :: fields[i].key != fields[k].key
    ensures Find(fields, fields[k].key) == Some(fields[k].value)
  {
    if k > 0 {
      assert fields[k] == fields[1..][k - 1];
      FindUnique(fields[1..], k - 1);
    }
  }

  lemma {:induction false} FindMissing(fields: seq<Field>, key: string)
    requires forall i | 0 <= i < |fields| :: fields[i].key != key
    ensures Find(fields, key) == None
  {
    if fields != [] {
      FindMissing(fields[1..], key);
    }
  }
}
