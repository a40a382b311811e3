/** Values, outcomes and documents as the backend's TypeScript sees them at run time. */
module Js {

  datatype Option<+T> = None | Some(value: T)

  /** The outcome of evaluating TypeScript code: it returns a value, or it raises a
      TypeError (for an async function: the returned promise rejects). */
  datatype Js<+T> = Return(value: T) | Throw

  /** A reference to a Firestore document: the path of its collection and its id. */
  datatype DocRef = DocRef(collection: string, id: string)

  /** A dynamically typed value, as read from a document or an untyped object.
      Numbers are integers in this model. */
  datatype Value =
    | Undefined
    | Null
    | Bool(b: bool)
    | Num(n: int)
    | Str(s: string)
    | Arr(elems: seq<Value>)
    | Obj(fields: map<string, Value>)
    | Ref(ref: DocRef)

  /** The fields of one document. */
  type Fields = map<string, Value>

  /** The documents of a Firestore database, by reference. */
  type Store = map<DocRef, Fields>

  /** `v[key]` for a key that is not an array index: a TypeError on undefined and
      null, an own field of an object, and undefined on every other value. */
  function Prop(v: Value, key: string): (r: Js<Value>)
    ensures r.Throw? <==> v.Undefined? || v.Null?
    ensures r.Return? && r.value != Undefined ==> v.Obj? && key in v.fields && v.fields[key] == r.value
  {
    match v
    case Undefined => Throw
    case Null => Throw
    case Obj(fields) => Return(if key in fields then fields[key] else Undefined)
    case _ => Return(Undefined)
  }

  /** JavaScript truthiness. */
  predicate Truthy(v: Value)
  {
    match v
    case Undefined => false
    case Null => false
    case Bool(b) => b
    case Num(n) => n != 0
    case Str(s) => s != ""
    case _ => true
  }

  /** A document snapshot: the reference it was read from, whether the document
      exists, and its fields. */
  datatype Snapshot = Snapshot(ref: DocRef, present: bool, data: Fields) {
    /** `snapshot.get(key)`: undefined for a missing field or a missing document. */
    function Get(key: string): Value
    {
      if present && key in data then data[key] else Undefined
    }
  }

  /** `ref.get()` against the database `store`. */
  function Read(store: Store, ref: DocRef): (s: Snapshot)
    ensures s.ref == ref && s.present == (ref in store)
    ensures s.present ==> s.data == store[ref]
    ensures !s.present ==> forall key :: s.Get(key) == Undefined
  {
    if ref in store then Snapshot(ref, true, store[ref]) else Snapshot(ref, false, map[])
  }

  /** A Firestore database whose documents are written in place. */
  class Firestore {
    var docs: Store

    constructor (initial: Store)
      ensures docs == initial
    {
      docs := initial;
    }

    /** `ref.set(fields)`: the document is created or overwritten; nothing else changes. */
    method Set(ref: DocRef, fields: Fields)
      modifies this
      ensures docs == old(docs)[ref := fields]
    {
      docs := docs[ref := fields];
    }

    /** `ref.delete()`: the document is removed; nothing else changes. */
    method Delete(ref: DocRef)
      modifies this
      ensures docs == old(docs) - {ref}
    {
      docs := docs - {ref};
    }
  }
}
