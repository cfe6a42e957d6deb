/** JSON values as the parser hands them over: objects keep their fields in order, duplicates included. */
module Json {
  import opened Common

  datatype Json =
    | Null
    | Bool(b: bool)
    | Int(n: int)
    | Float(r: real)
    | Str(s: string)
    | Arr(items: seq<Json>)
    | Obj(fields: seq<(string, Json)>)

  function Names(fields: seq<(string, Json)>): (ns: seq<string>)
    ensures |ns| == |fields|
    ensures forall i :: 0 <= i < |ns| ==> ns[i] == fields[i].0
  {
    seq(|fields|, i requires 0 <= i < |fields| => fields[i].0)
  }

  predicate Unrepeated<T(==)>(s: seq<T>) {
    forall i, j :: 0 <= i < j < |s| ==> s[i] != s[j]
  }

  /** `_reject_duplicates` accepts every object inside the value. */
  predicate NoDuplicates(v: Json) {
    match v
    case Arr(items) => forall i :: 0 <= i < |items| ==> NoDuplicates(items[i])
    case Obj(fields) => Unrepeated(Names(fields)) && forall i :: 0 <= i < |fields| ==> NoDuplicates(fields[i].1)
    case _ => true
  }

  /** `set(value) == names` for a dictionary. */
  predicate HasExactly(v: Json, names: set<string>) {
    && v.Obj?
    && (forall n :: n in names ==> n in Names(v.fields))
    && (forall n :: n in Names(v.fields) ==> n in names)
  }

  /** `value[name]` */
  function Field(v: Json, name: string): (f: Json)
    requires v.Obj? && name in Names(v.fields)
    ensures f < v
  {
    FindField(v.fields, name)
  }

  function FindField(fields: seq<(string, Json)>, name: string): (f: Json)
    requires name in Names(fields)
    ensures exists i :: 0 <= i < |fields| && fields[i].0 == name && f == fields[i].1
  {
    if fields[0].0 == name then fields[0].1
    else
      assert Names(fields) == [fields[0].0] + Names(fields[1..]);
      var f := FindField(fields[1..], name);
      var i :| 0 <= i < |fields[1..]| && fields[1..][i].0 == name && f == fields[1..][i].1;
      assert fields[i + 1] == fields[1..][i];
      f
  }

  lemma UnrepeatedPrefix<T>(a: seq<T>, b: seq<T>)
    requires Unrepeated(a + b)
    ensures Unrepeated(a)
  {
    forall i, j | 0 <= i < j < |a| ensures a[i] != a[j] {
      assert (a + b)[i] == a[i] && (a + b)[j] == a[j];
    }
  }

  lemma UnrepeatedAppend<T>(a: seq<T>, x: T)
    requires Unrepeated(a) && x !in a
    ensures Unrepeated(a + [x])
  {
  }

  lemma UnrepeatedParts<T>(a: seq<T>, b: seq<T>)
    requires Unrepeated(a + b)
    ensures forall x :: x in a ==> x !in b
  {
    forall i, j | 0 <= i < |a| && 0 <= j < |b| ensures a[i] != b[j] {
      assert (a + b)[i] == a[i] && (a + b)[|a| + j] == b[j];
    }
  }
}
