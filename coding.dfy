/** The coding layer the engine runs on: the string-only key type, the wrapper
    that demands an object at the document root, and the keyed and unkeyed
    decoding containers through which fields and array elements are read. */
module Coding {
  import opened JsonModel

  /** A key into an object context. It holds a string and nothing else. */
  datatype CodingKey = CodingKey(stringValue: string)

  /** The key's integer value: a key never has one. */
  function IntValue(k: CodingKey): (r: Option<int>)
    ensures r.None?
  {
    None
  }

  /** The unlabelled initialiser: stores the string unchanged. */
  function KeyOf(s: string): (k: CodingKey)
    ensures k.stringValue == s
  {
    CodingKey(s)
  }

  /** The failable string initialiser: never fails; stores the string unchanged. */
  function KeyFromStringValue(s: string): (k: Option<CodingKey>)
    ensures k.Some? && k.value.stringValue == s
  {
    Some(CodingKey(s))
  }

  /** The failable integer initialiser: always fails. */
  function KeyFromIntValue(n: int): (k: Option<CodingKey>)
    ensures k.None?
  {
    None
  }

  /** The root wrapper: decoding succeeds exactly when the document root is
      an object, and then exposes that object's fields as the context. */
  function AnonymousContainer(doc: Json): (r: Result<Ctx>)
    ensures r.Ok? <==> doc.Obj?
    ensures r.Ok? ==> r.value == doc.fields
    ensures r.Fail? ==> r.err == NotObject
  {
    match doc
    case Obj(fields) => Ok(fields)
    case _ => Fail(NotObject)
  }

  /** A scalar decoder of the host: the shape it expects and the partial
      conversion from a JSON value. */
  datatype Decoder<A> = Decoder(shape: Shape, decode: Json -> Option<A>)

  /** A decoder that accepts exactly the values of its shape. */
  ghost predicate Exact<A>(d: Decoder<A>) {
    forall j :: d.decode(j).Some? <==> HasShape(j, d.shape)
  }

  const StringDecoder: Decoder<string> :=
    Decoder(StringShape, (j: Json) => if j.Str? then Some(j.s) else None)

  const IntDecoder: Decoder<int> :=
    Decoder(IntShape, (j: Json) => if j.Num? && FitsInt(j.n) then Some(j.n) else None)

  const BoolDecoder: Decoder<bool> :=
    Decoder(BoolShape, (j: Json) => if j.Bool? then Some(j.b) else None)

  const ArrayDecoder: Decoder<seq<Json>> :=
    Decoder(ArrayShape, (j: Json) => if j.Arr? then Some(j.elems) else None)

  const ObjectDecoder: Decoder<Ctx> :=
    Decoder(ObjectShape, (j: Json) => if j.Obj? then Some(j.fields) else None)

  /** The built-in decoders accept exactly the values of their shape. */
  lemma StandardDecodersExact()
    ensures Exact(StringDecoder) && Exact(IntDecoder) && Exact(BoolDecoder)
    ensures Exact(ArrayDecoder) && Exact(ObjectDecoder)
  {
  }

  /** Keyed decoding of one field: absent key, null value and wrong shape are
      three distinct failures, each naming the key. */
  function Decode<A>(c: Ctx, d: Decoder<A>, key: CodingKey): (r: Result<A>)
    ensures r.Ok? <==> key.stringValue in c && c[key.stringValue] != Null
                       && d.decode(c[key.stringValue]).Some?
    ensures r.Ok? ==> d.decode(c[key.stringValue]) == Some(r.value)
    ensures r.Fail? ==> r.err == (if key.stringValue !in c then MissingKey(key.stringValue)
                                  else if c[key.stringValue] == Null then ValueNotFound(key.stringValue)
                                  else TypeMismatch(key.stringValue, d.shape))
  {
    var name := key.stringValue;
    if name !in c then Fail(MissingKey(name))
    else if c[name] == Null then Fail(ValueNotFound(name))
    else match d.decode(c[name])
      case Some(v) => Ok(v)
      case None => Fail(TypeMismatch(name, d.shape))
  }

  /** A keyed container nested at `key`: the object stored there. */
  function NestedKeyed(c: Ctx, key: CodingKey): (r: Result<Ctx>)
    ensures r.Ok? <==> key.stringValue in c && c[key.stringValue].Obj?
    ensures r.Ok? ==> r.value == c[key.stringValue].fields
    ensures r.Fail? ==> r.err == (if key.stringValue in c then TypeMismatch(key.stringValue, ObjectShape)
                                  else MissingKey(key.stringValue))
  {
    var name := key.stringValue;
    if name !in c then Fail(MissingKey(name))
    else match c[name]
      case Obj(fields) => Ok(fields)
      case _ => Fail(TypeMismatch(name, ObjectShape))
  }

  /** An unkeyed container nested at `key`: the elements of the array stored there. */
  function NestedUnkeyed(c: Ctx, key: CodingKey): (r: Result<seq<Json>>)
    ensures r.Ok? <==> key.stringValue in c && c[key.stringValue].Arr?
    ensures r.Ok? ==> r.value == c[key.stringValue].elems
    ensures r.Fail? ==> r.err == (if key.stringValue in c then TypeMismatch(key.stringValue, ArrayShape)
                                  else MissingKey(key.stringValue))
  {
    var name := key.stringValue;
    if name !in c then Fail(MissingKey(name))
    else match c[name]
      case Arr(elems) => Ok(elems)
      case _ => Fail(TypeMismatch(name, ArrayShape))
  }

  /** An unkeyed decoding container: the elements of an array and a cursor
      that moves past each element once it has been read. */
  class UnkeyedContainer {
    const elements: seq<Json>
    var currentIndex: nat

    constructor (elements: seq<Json>)
      ensures this.elements == elements && currentIndex == 0
    {
      this.elements := elements;
      currentIndex := 0;
    }

    predicate IsAtEnd()
      reads this
    {
      currentIndex >= |elements|
    }

    /** Reads the element under the cursor as a keyed container. On success
        the cursor moves one position on; on failure it stays. */
    method NestedContainer() returns (r: Result<Ctx>)
      modifies this
      ensures var i := old(currentIndex);
        if i < |elements| && elements[i].Obj?
        then r == Ok(elements[i].fields) && currentIndex == i + 1
        else r == Fail(ElementNotObject(i)) && currentIndex == i
    {
      if currentIndex < |elements| && elements[currentIndex].Obj? {
        r := Ok(elements[currentIndex].fields);
        currentIndex := currentIndex + 1;
      } else {
        r := Fail(ElementNotObject(currentIndex));
      }
    }
  }
}
