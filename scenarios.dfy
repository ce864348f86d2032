/** Rules over small illustrative food documents: a flat record, a nested
    result, a list of records and an alternation, with what running each one
    yields. */
module Scenarios {
  import opened JsonModel
  import opened Coding
  import opened Parsers

  datatype Food = Food(name: string, points: int)

  /** A food record from the sibling fields "name" and "points". */
  function FoodRule(): Rule<Food> {
    Map(Zip(Parse(StringDecoder, "name"), Parse(IntDecoder, "points")),
        (t: (string, int)) => Food(t.0, t.1))
  }

  function Toast(): Json {
    Obj(map["name" := Str("toast"), "points" := Num(2)])
  }

  /** Any document whose "name" is "toast" yields "toast" for that field. */
  lemma NameIsToast(fields: map<string, Json>)
    requires "name" in fields && fields["name"] == Str("toast")
    ensures Run(Parse(StringDecoder, "name"), Obj(fields)) == Ok("toast")
  {
  }

  /** Pairing two sibling fields builds the whole record. */
  lemma ToastRecord()
    ensures Run(FoodRule(), Toast()) == Ok(Food("toast", 2))
  {
  }

  /** Descending along a path and reading a field there, and reading a
      sibling of the path's first object directly. */
  lemma NestedResult()
    ensures var doc := Obj(map["success" := Obj(map["result" := Obj(map["value" := Num(4)]),
                                                  "winner" := Bool(true)])]);
      && Run(Chain(NestedPath(["success", "result"]), Parse(IntDecoder, "value")), doc) == Ok(4)
      && Run(Chain(NestedContainer("success"), Parse(BoolDecoder, "winner")), doc) == Ok(true)
  {
  }

  /** A list of two records yields both, in array order. */
  lemma ResultsList()
    ensures var banana := Obj(map["name" := Str("banana"), "points" := Num(0)]);
      var hamburger := Obj(map["name" := Str("hamburger"), "points" := Num(8)]);
      Run(ParseMany(FoodRule(), "results"), Obj(map["results" := Arr([banana, hamburger])]))
        == Ok([Food("banana", 0), Food("hamburger", 8)])
  {
    var banana := map["name" := Str("banana"), "points" := Num(0)];
    var hamburger := map["name" := Str("hamburger"), "points" := Num(8)];
    var elems := [Obj(banana), Obj(hamburger)];
    assert FoodRule()(banana) == Ok(Food("banana", 0)) by {
      assert Parse(StringDecoder, "name")(banana) == Ok("banana");
      assert Parse(IntDecoder, "points")(banana) == Ok(0);
    }
    assert FoodRule()(hamburger) == Ok(Food("hamburger", 8)) by {
      assert Parse(StringDecoder, "name")(hamburger) == Ok("hamburger");
      assert Parse(IntDecoder, "points")(hamburger) == Ok(8);
    }
    assert ParsePrefix(FoodRule(), elems, 0) == Ok([]);
    assert ParseElement(FoodRule(), elems, 0) == Ok(Food("banana", 0));
    assert [] + [Food("banana", 0)] == [Food("banana", 0)];
    assert ParsePrefix(FoodRule(), elems, 1) == Ok([Food("banana", 0)]);
    assert ParseElement(FoodRule(), elems, 1) == Ok(Food("hamburger", 8));
    assert [Food("banana", 0)] + [Food("hamburger", 8)] == [Food("banana", 0), Food("hamburger", 8)];
    assert ParsePrefix(FoodRule(), elems, 2) == Ok([Food("banana", 0), Food("hamburger", 8)]);
    assert ParseMany(FoodRule(), "results")(map["results" := Arr(elems)])
      == ParsePrefix(FoodRule(), elems, 2);
  }

  /** A name read as a string or else as a number: on a document where it is
      neither, both attempts are reported in order. */
  lemma NameAlternationFails()
    ensures var c := map["name" := Bool(false)];
      var ps := [Map(Parse(StringDecoder, "name"), (s: string) => |s|), Parse(IntDecoder, "name")];
      OneOf(ps)(c) == Fail(OneOfFailed([Attempt(0, TypeMismatch("name", StringShape)),
                                        Attempt(1, TypeMismatch("name", IntShape))], c))
  {
    var c := map["name" := Bool(false)];
    var ps := [Map(Parse(StringDecoder, "name"), (s: string) => |s|), Parse(IntDecoder, "name")];
    assert ps[0](c) == Fail(TypeMismatch("name", StringShape));
    assert ps[1](c) == Fail(TypeMismatch("name", IntShape));
    OneOfAllFail(ps, c);
  }
}
