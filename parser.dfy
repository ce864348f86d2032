/** The rule engine: a rule maps an object context to a value or a failure;
    primitives build rules from keys, and combinators build rules from rules.
    The primitives whose source loops (path descent, alternation, list
    iteration) each have a specification function, which composes with the
    other rules, and a method that runs the loop and is proved equal to it. */
module Parsers {
  import opened JsonModel
  import opened Coding

  /** A rule: runs against an object context. */
  type Rule<A> = Ctx -> Result<A>

  /** Runs a rule on a whole document: the root must be an object, whose
      fields become the context the rule runs against. */
  function Run<A>(p: Rule<A>, doc: Json): (r: Result<A>)
    ensures doc.Obj? ==> r == p(doc.fields)
    ensures !doc.Obj? ==> r == Fail(NotObject)
  {
    match AnonymousContainer(doc)
    case Ok(c) => p(c)
    case Fail(e) => Fail(e)
  }

  // ---------------------------------------------------------------------
  // Field decoding and single-key descent

  /** The field at `key`, decoded with `d`. */
  function Parse<A>(d: Decoder<A>, key: string): (p: Rule<A>)
    ensures forall c: Ctx :: key !in c ==> p(c) == Fail(MissingKey(key))
    ensures forall c: Ctx :: key in c && c[key] == Null ==> p(c) == Fail(ValueNotFound(key))
    ensures forall c: Ctx :: key in c && c[key] != Null ==>
      p(c) == match d.decode(c[key])
              case Some(v) => Ok(v)
              case None => Fail(TypeMismatch(key, d.shape))
  {
    (c: Ctx) => Decode(c, d, KeyOf(key))
  }

  /** The object stored at `key`, as a new context. */
  function NestedContainer(key: string): (p: Rule<Ctx>)
    ensures forall c: Ctx :: p(c).Ok? <==> key in c && c[key].Obj?
    ensures forall c: Ctx :: key in c && c[key].Obj? ==> p(c) == Ok(c[key].fields)
    ensures forall c: Ctx :: key !in c ==> p(c) == Fail(MissingKey(key))
    ensures forall c: Ctx :: key in c && !c[key].Obj? ==> p(c) == Fail(TypeMismatch(key, ObjectShape))
  {
    (c: Ctx) => NestedKeyed(c, KeyOf(key))
  }

  /** With a scalar decoder, decoding succeeds exactly on a field of that
      shape and yields its payload. */
  lemma ParseScalars(key: string, c: Ctx)
    ensures forall s :: Parse(StringDecoder, key)(c) == Ok(s) <==> key in c && c[key] == Str(s)
    ensures forall n :: Parse(IntDecoder, key)(c) == Ok(n) <==> key in c && c[key] == Num(n) && FitsInt(n)
    ensures forall b :: Parse(BoolDecoder, key)(c) == Ok(b) <==> key in c && c[key] == Bool(b)
  {
  }

  /** Every failure of a decoding rule names its key, and together they
      cover all the ways a field can be unfit. */
  lemma ParseFails<A>(d: Decoder<A>, key: string, c: Ctx)
    requires Exact(d)
    ensures Parse(d, key)(c).Fail? <==> key !in c || !HasShape(c[key], d.shape)
    ensures Parse(d, key)(c).Fail? ==>
      Parse(d, key)(c).err in {MissingKey(key), ValueNotFound(key), TypeMismatch(key, d.shape)}
  {
  }

  // ---------------------------------------------------------------------
  // Combinators

  /** Applies `f` to a success; a failure passes unchanged. */
  function Map<A, B>(p: Rule<A>, f: A -> B): (q: Rule<B>)
    ensures forall c: Ctx :: p(c).Ok? ==> q(c) == Ok(f(p(c).value))
    ensures forall c: Ctx :: p(c).Fail? ==> q(c) == Fail(p(c).err)
  {
    (c: Ctx) => match p(c)
      case Ok(a) => Ok(f(a))
      case Fail(e) => Fail(e)
  }

  /** Runs `p` to get a context, then `b` on that context. */
  function Chain<B>(p: Rule<Ctx>, b: Rule<B>): (q: Rule<B>)
    ensures forall c: Ctx :: p(c).Ok? ==> q(c) == b(p(c).value)
    ensures forall c: Ctx :: p(c).Fail? ==> q(c) == Fail(p(c).err)
  {
    (c: Ctx) => match p(c)
      case Ok(inner) => b(inner)
      case Fail(e) => Fail(e)
  }

  /** Runs `p` to get a context, then `b` and then `d` on that same context,
      pairing their results; the first failure in that order is reported. */
  function Chain2<B, C>(p: Rule<Ctx>, b: Rule<B>, d: Rule<C>): (q: Rule<(B, C)>)
    ensures forall c: Ctx :: q(c).Ok? <==> p(c).Ok? && b(p(c).value).Ok? && d(p(c).value).Ok?
    ensures forall c: Ctx :: q(c).Ok? ==> q(c).value == (b(p(c).value).value, d(p(c).value).value)
    ensures forall c: Ctx :: p(c).Fail? ==> q(c) == Fail(p(c).err)
    ensures forall c: Ctx :: p(c).Ok? && b(p(c).value).Fail? ==> q(c) == Fail(b(p(c).value).err)
    ensures forall c: Ctx :: p(c).Ok? && b(p(c).value).Ok? && d(p(c).value).Fail? ==>
      q(c) == Fail(d(p(c).value).err)
  {
    (c: Ctx) => match p(c)
      case Fail(e) => Fail(e)
      case Ok(inner) =>
        match b(inner)
        case Fail(e) => Fail(e)
        case Ok(x) =>
          match d(inner)
          case Fail(e) => Fail(e)
          case Ok(y) => Ok((x, y))
  }

  /** Runs `a` and then `b` on the same context, pairing their results. */
  function Zip<A, B>(a: Rule<A>, b: Rule<B>): (q: Rule<(A, B)>)
    ensures forall c: Ctx :: q(c).Ok? <==> a(c).Ok? && b(c).Ok?
    ensures forall c: Ctx :: q(c).Ok? ==> q(c).value == (a(c).value, b(c).value)
    ensures forall c: Ctx :: a(c).Fail? ==> q(c) == Fail(a(c).err)
    ensures forall c: Ctx :: a(c).Ok? && b(c).Fail? ==> q(c) == Fail(b(c).err)
  {
    (c: Ctx) => match a(c)
      case Fail(e) => Fail(e)
      case Ok(x) =>
        match b(c)
        case Fail(e) => Fail(e)
        case Ok(y) => Ok((x, y))
  }

  /** Mapping the identity changes nothing. */
  lemma MapIdentity<A>(p: Rule<A>, c: Ctx)
    ensures Map(p, (x: A) => x)(c) == p(c)
  {
  }

  /** Mapping twice is mapping the composition. */
  lemma MapComposition<A, B, C>(p: Rule<A>, f: A -> B, g: B -> C, c: Ctx)
    ensures Map(Map(p, f), g)(c) == Map(p, (x: A) => g(f(x)))(c)
  {
  }

  /** Sequencing through contexts is associative. */
  lemma ChainAssociative<B>(a: Rule<Ctx>, b: Rule<Ctx>, d: Rule<B>, c: Ctx)
    ensures Chain(Chain(a, b), d)(c) == Chain(a, Chain(b, d))(c)
  {
  }

  /** Descending and then pairing two rules is descending into their zip. */
  lemma Chain2IsChainOfZip<B, C>(p: Rule<Ctx>, b: Rule<B>, d: Rule<C>, c: Ctx)
    ensures Chain2(p, b, d)(c) == Chain(p, Zip(b, d))(c)
  {
  }

  /** When the first rule of a zip fails, the second is never consulted. */
  lemma ZipIgnoresSecondAfterFailure<A, B>(a: Rule<A>, b: Rule<B>, b': Rule<B>, c: Ctx)
    requires a(c).Fail?
    ensures Zip(a, b)(c) == Zip(a, b')(c) == Fail(a(c).err)
  {
  }

  // ---------------------------------------------------------------------
  // Multi-key descent

  /** One step of descent from an intermediate result; failures propagate. */
  function Descend(acc: Result<Ctx>, key: string): (r: Result<Ctx>)
    ensures r.Ok? <==> acc.Ok? && key in acc.value && acc.value[key].Obj?
    ensures r.Ok? ==> r.value == acc.value[key].fields
    ensures acc.Fail? ==> r == acc
  {
    match acc
    case Fail(e) => Fail(e)
    case Ok(c) => NestedContainer(key)(c)
  }

  /** Left fold of single-key descent over `path`, starting from `acc`. */
  function FoldPath(acc: Result<Ctx>, path: seq<string>): (r: Result<Ctx>)
    ensures path == [] ==> r == acc
    ensures r.Ok? ==> acc.Ok?
    decreases |path|
  {
    if |path| == 0 then acc
    else Descend(FoldPath(acc, path[..|path| - 1]), path[|path| - 1])
  }

  /** Descends through the keys of `path` in order. */
  function NestedPath(path: seq<string>): (p: Rule<Ctx>)
    ensures path == [] ==> forall c: Ctx :: p(c) == Ok(c)
  {
    (c: Ctx) => FoldPath(Ok(c), path)
  }

  /** Once the fold has failed, it stays failed with the same failure. */
  lemma {:induction false} FoldPathFailed(e: Err, path: seq<string>)
    ensures FoldPath(Fail(e), path) == Fail(e)
    decreases |path|
  {
    if |path| > 0 {
      FoldPathFailed(e, path[..|path| - 1]);
    }
  }

  /** Folding over two paths in turn is folding over their concatenation. */
  lemma {:induction false} FoldPathAppend(acc: Result<Ctx>, p: seq<string>, q: seq<string>)
    ensures FoldPath(acc, p + q) == FoldPath(FoldPath(acc, p), q)
    decreases |q|
  {
    if |q| == 0 {
      assert p + q == p;
    } else {
      var q' := q[..|q| - 1];
      assert (p + q)[..|p + q| - 1] == p + q';
      FoldPathAppend(acc, p, q');
    }
  }

  /** A one-key path is single-key descent. */
  lemma NestedPathSingle(key: string, c: Ctx)
    ensures NestedPath([key])(c) == NestedContainer(key)(c)
  {
    assert [key][..0] == [];
    assert FoldPath(Ok(c), [key]) == Descend(Ok(c), key);
  }

  /** Descending along `p + q` is descending along `p` and then along `q`. */
  lemma NestedPathAppend(p: seq<string>, q: seq<string>, c: Ctx)
    ensures NestedPath(p + q)(c) == Chain(NestedPath(p), NestedPath(q))(c)
  {
    FoldPathAppend(Ok(c), p, q);
    match FoldPath(Ok(c), p)
    case Fail(e) => FoldPathFailed(e, q);
    case Ok(_) =>
  }

  /** A path is the chain of its first key's descent and the rest's. */
  lemma NestedPathCons(key: string, rest: seq<string>, c: Ctx)
    ensures NestedPath([key] + rest)(c) == Chain(NestedContainer(key), NestedPath(rest))(c)
  {
    NestedPathAppend([key], rest, c);
    NestedPathSingle(key, c);
  }

  /** A failing descent fails at the first bad segment: every earlier key
      descends, and the failure is that segment's own. */
  lemma {:induction false} NestedPathFirstFailure(path: seq<string>, c: Ctx)
    requires NestedPath(path)(c).Fail?
    ensures exists i :: (0 <= i < |path| && FoldPath(Ok(c), path[..i]).Ok?
      && NestedContainer(path[i])(FoldPath(Ok(c), path[..i]).value) == NestedPath(path)(c))
    decreases |path|
  {
    var n := |path| - 1;
    var init := path[..n];
    assert path[..n] == init;
    if FoldPath(Ok(c), init).Ok? {
      assert 0 <= n < |path| && FoldPath(Ok(c), path[..n]).Ok?;
    } else {
      NestedPathFirstFailure(init, c);
      var i :| 0 <= i < |init| && FoldPath(Ok(c), init[..i]).Ok?
        && NestedContainer(init[i])(FoldPath(Ok(c), init[..i]).value) == NestedPath(init)(c);
      assert init[..i] == path[..i];
      FoldPathFailed(FoldPath(Ok(c), init).err, [path[n]]);
      assert [path[n]][..0] == [];
      assert 0 <= i < |path| && FoldPath(Ok(c), path[..i]).Ok?
        && NestedContainer(path[i])(FoldPath(Ok(c), path[..i]).value) == NestedPath(path)(c);
    }
  }

  /** The descent loop: replaces the current context by the one nested at
      each key in turn, stopping at the first failure. */
  method RunNestedPath(path: seq<string>, c: Ctx) returns (r: Result<Ctx>)
    ensures r == NestedPath(path)(c)
  {
    var cur := c;
    var i := 0;
    while i < |path|
      invariant 0 <= i <= |path|
      invariant FoldPath(Ok(c), path[..i]) == Ok(cur)
    {
      assert path[..i + 1][..i] == path[..i];
      var next := NestedContainer(path[i])(cur);
      if next.Fail? {
        assert path == path[..i + 1] + path[i + 1..];
        FoldPathAppend(Ok(c), path[..i + 1], path[i + 1..]);
        FoldPathFailed(next.err, path[i + 1..]);
        return Fail(next.err);
      }
      cur := next.value;
      i := i + 1;
    }
    assert path[..i] == path;
    r := Ok(cur);
  }

  // ---------------------------------------------------------------------
  // Ordered alternation

  /** The position of the first rule that succeeds on `c`, or `|ps|` when
      none does. */
  function FirstSuccess<A>(ps: seq<Rule<A>>, c: Ctx): (i: nat)
    ensures i <= |ps|
    ensures forall j :: 0 <= j < i ==> ps[j](c).Fail?
    ensures i < |ps| ==> ps[i](c).Ok?
  {
    if |ps| == 0 then 0
    else if ps[0](c).Ok? then 0
    else 1 + FirstSuccess(ps[1..], c)
  }

  /** The failures of rules that all failed on `c`, one per rule, in order,
      each with its position. */
  function Attempts<A>(ps: seq<Rule<A>>, c: Ctx): (fs: seq<Attempt>)
    requires forall j :: 0 <= j < |ps| ==> ps[j](c).Fail?
    ensures |fs| == |ps|
    ensures forall j :: 0 <= j < |ps| ==> fs[j] == Attempt(j, ps[j](c).err)
  {
    seq(|ps|, (j: int) requires 0 <= j < |ps| => Attempt(j, ps[j](c).err))
  }

  /** Tries the rules in order on the same context; the first success wins.
      When all fail, the failure lists every attempt and the context. */
  function OneOf<A>(ps: seq<Rule<A>>): (q: Rule<A>)
    ensures forall c: Ctx :: q(c).Ok? ==> exists j :: 0 <= j < |ps| && ps[j](c) == q(c)
    ensures forall c: Ctx :: q(c).Fail? ==>
      q(c).err.OneOfFailed? && q(c).err.context == c && |q(c).err.failures| == |ps|
  {
    var q := (c: Ctx) =>
      var i := FirstSuccess(ps, c);
      if i < |ps| then ps[i](c) else Fail(OneOfFailed(Attempts(ps, c), c));
    assert forall c: Ctx :: q(c).Ok? ==> exists j :: 0 <= j < |ps| && ps[j](c) == q(c) by {
      forall c: Ctx | q(c).Ok?
        ensures exists j :: 0 <= j < |ps| && ps[j](c) == q(c)
      {
        var i := FirstSuccess(ps, c);
        assert 0 <= i < |ps| && ps[i](c) == q(c);
      }
    }
    assert forall c: Ctx :: q(c).Fail? ==>
      q(c).err.OneOfFailed? && q(c).err.context == c && |q(c).err.failures| == |ps| by {
      forall c: Ctx | q(c).Fail?
        ensures q(c).err.OneOfFailed? && q(c).err.context == c && |q(c).err.failures| == |ps|
      {
        assert FirstSuccess(ps, c) == |ps|;
        assert q(c) == Fail(OneOfFailed(Attempts(ps, c), c));
      }
    }
    q
  }

  /** The first rule in list order that succeeds gives the result. */
  lemma OneOfFirstWins<A>(ps: seq<Rule<A>>, i: nat, c: Ctx)
    requires i < |ps| && ps[i](c).Ok?
    requires forall j :: 0 <= j < i ==> ps[j](c).Fail?
    ensures OneOf(ps)(c) == ps[i](c)
  {
    var k := FirstSuccess(ps, c);
    assert k == i;
  }

  /** When every rule fails, the failure holds one attempt per rule, in
      order, together with the context that was tried. */
  lemma OneOfAllFail<A>(ps: seq<Rule<A>>, c: Ctx)
    requires forall j :: 0 <= j < |ps| ==> ps[j](c).Fail?
    ensures OneOf(ps)(c).Fail? && OneOf(ps)(c).err.OneOfFailed?
    ensures OneOf(ps)(c).err.context == c
    ensures var fs := OneOf(ps)(c).err.failures;
      |fs| == |ps| && forall j :: 0 <= j < |ps| ==> fs[j] == Attempt(j, ps[j](c).err)
  {
    var k := FirstSuccess(ps, c);
    assert k == |ps|;
    assert OneOf(ps)(c) == Fail(OneOfFailed(Attempts(ps, c), c));
  }

  /** An alternation succeeds exactly when one of its rules does. */
  lemma OneOfSucceedsIff<A>(ps: seq<Rule<A>>, c: Ctx)
    ensures OneOf(ps)(c).Ok? <==> exists j :: 0 <= j < |ps| && ps[j](c).Ok?
  {
    var k := FirstSuccess(ps, c);
    if k == |ps| {
      assert forall j :: 0 <= j < |ps| ==> ps[j](c).Fail?;
    }
  }

  /** The rules after the first success are never run: replacing them
      changes nothing. */
  lemma OneOfIgnoresLater<A>(ps: seq<Rule<A>>, i: nat, qs: seq<Rule<A>>, c: Ctx)
    requires i < |ps| && ps[i](c).Ok?
    requires forall j :: 0 <= j < i ==> ps[j](c).Fail?
    ensures OneOf(ps)(c) == OneOf(ps[..i + 1] + qs)(c)
  {
    var ps' := ps[..i + 1] + qs;
    assert forall j :: 0 <= j <= i ==> ps'[j] == ps[j];
    OneOfFirstWins(ps, i, c);
    OneOfFirstWins(ps', i, c);
  }

  /** The alternation loop: returns the first success, collecting each
      failure with its position until then. */
  method RunOneOf<A>(ps: seq<Rule<A>>, c: Ctx) returns (r: Result<A>)
    ensures r == OneOf(ps)(c)
  {
    var failures: seq<Attempt> := [];
    var i := 0;
    while i < |ps|
      invariant 0 <= i <= |ps|
      invariant forall j :: 0 <= j < i ==> ps[j](c).Fail?
      invariant |failures| == i
      invariant forall j :: 0 <= j < i ==> failures[j] == Attempt(j, ps[j](c).err)
    {
      var res := ps[i](c);
      if res.Ok? {
        OneOfFirstWins(ps, i, c);
        return res;
      }
      failures := failures + [Attempt(i, res.err)];
      i := i + 1;
    }
    OneOfAllFail(ps, c);
    assert failures == OneOf(ps)(c).err.failures;
    r := Fail(OneOfFailed(failures, c));
  }

  // ---------------------------------------------------------------------
  // List iteration

  /** Runs `p` on the object at position `i` of `elems`. */
  function ParseElement<A>(p: Rule<A>, elems: seq<Json>, i: nat): (r: Result<A>)
    requires i < |elems|
    ensures elems[i].Obj? ==> r == p(elems[i].fields)
    ensures !elems[i].Obj? ==> r == Fail(ElementNotObject(i))
  {
    match elems[i]
    case Obj(fields) => p(fields)
    case _ => Fail(ElementNotObject(i))
  }

  /** The results of `p` on the first `n` elements, in order, or the first
      failure among them. */
  function ParsePrefix<A>(p: Rule<A>, elems: seq<Json>, n: nat): (r: Result<seq<A>>)
    requires n <= |elems|
    ensures n == 0 ==> r == Ok([])
    ensures r.Ok? ==> |r.value| == n
  {
    if n == 0 then Ok([])
    else match ParsePrefix(p, elems, n - 1)
      case Fail(e) => Fail(e)
      case Ok(xs) =>
        match ParseElement(p, elems, n - 1)
        case Fail(e) => Fail(e)
        case Ok(x) => Ok(xs + [x])
  }

  /** Runs `p` on every object of the array at `key`, in order. */
  function ParseMany<A>(p: Rule<A>, key: string): (q: Rule<seq<A>>)
    ensures forall c: Ctx :: key !in c ==> q(c) == Fail(MissingKey(key))
    ensures forall c: Ctx :: key in c && !c[key].Arr? ==> q(c) == Fail(TypeMismatch(key, ArrayShape))
  {
    (c: Ctx) =>
      match NestedUnkeyed(c, KeyOf(key))
      case Fail(e) => Fail(e)
      case Ok(elems) => ParsePrefix(p, elems, |elems|)
  }

  /** A successful prefix has one result per element, each the result of
      `p` on that element's object. */
  lemma {:induction false} ParsePrefixOk<A>(p: Rule<A>, elems: seq<Json>, n: nat)
    requires n <= |elems| && ParsePrefix(p, elems, n).Ok?
    ensures var xs := ParsePrefix(p, elems, n).value;
      |xs| == n && forall i :: 0 <= i < n ==> elems[i].Obj? && p(elems[i].fields) == Ok(xs[i])
  {
    if n > 0 {
      ParsePrefixOk(p, elems, n - 1);
    }
  }

  /** Conversely, when every element is an object that `p` accepts, the
      prefix succeeds. */
  lemma {:induction false} ParsePrefixAllOk<A>(p: Rule<A>, elems: seq<Json>, n: nat)
    requires n <= |elems|
    requires forall i :: 0 <= i < n ==> elems[i].Obj? && p(elems[i].fields).Ok?
    ensures ParsePrefix(p, elems, n).Ok?
  {
    if n > 0 {
      ParsePrefixAllOk(p, elems, n - 1);
    }
  }

  /** A failed prefix stays failed, with the same failure, however far the
      iteration goes. */
  lemma {:induction false} ParsePrefixFailed<A>(p: Rule<A>, elems: seq<Json>, n: nat, m: nat)
    requires n <= m <= |elems| && ParsePrefix(p, elems, n).Fail?
    ensures ParsePrefix(p, elems, m) == ParsePrefix(p, elems, n)
    decreases m
  {
    if m > n {
      ParsePrefixFailed(p, elems, n, m - 1);
    }
  }

  /** The prefix reads only the elements it covers. */
  lemma {:induction false} ParsePrefixLocal<A>(p: Rule<A>, elems: seq<Json>, other: seq<Json>, n: nat)
    requires n <= |elems| && n <= |other| && elems[..n] == other[..n]
    ensures ParsePrefix(p, elems, n) == ParsePrefix(p, other, n)
  {
    if n > 0 {
      assert elems[..n - 1] == other[..n - 1] by {
        assert elems[..n - 1] == elems[..n][..n - 1];
        assert other[..n - 1] == other[..n][..n - 1];
      }
      assert elems[n - 1] == elems[..n][n - 1] == other[..n][n - 1] == other[n - 1];
      ParsePrefixLocal(p, elems, other, n - 1);
    }
  }

  /** Fail fast: the first element that is not an object or that `p`
      rejects decides the failure, whatever follows it. */
  lemma ParseElementsFailFast<A>(p: Rule<A>, elems: seq<Json>, k: nat, rest: seq<Json>)
    requires k < |elems|
    requires forall i :: 0 <= i < k ==> elems[i].Obj? && p(elems[i].fields).Ok?
    requires ParseElement(p, elems, k).Fail?
    ensures ParsePrefix(p, elems, |elems|) == Fail(ParseElement(p, elems, k).err)
    ensures ParsePrefix(p, elems[..k + 1] + rest, k + 1 + |rest|) == ParsePrefix(p, elems, |elems|)
  {
    ParsePrefixAllOk(p, elems, k);
    ParsePrefixFailed(p, elems, k + 1, |elems|);
    var other := elems[..k + 1] + rest;
    assert other[..k + 1] == elems[..k + 1];
    ParsePrefixLocal(p, elems, other, k + 1);
    ParsePrefixFailed(p, other, k + 1, |other|);
  }

  /** Fail fast for the list rule: when the array's first unfit element is
      at position k, the rule fails with that element's failure. */
  lemma ParseManyFailFast<A>(p: Rule<A>, key: string, c: Ctx, k: nat)
    requires key in c && c[key].Arr? && k < |c[key].elems|
    requires forall i :: 0 <= i < k ==> c[key].elems[i].Obj? && p(c[key].elems[i].fields).Ok?
    requires ParseElement(p, c[key].elems, k).Fail?
    ensures ParseMany(p, key)(c) == Fail(ParseElement(p, c[key].elems, k).err)
  {
    ParseElementsFailFast(p, c[key].elems, k, []);
  }

  /** A successful list has the array's length, element i being `p` applied
      to the object at position i of the array. */
  lemma ParseManyOk<A>(p: Rule<A>, key: string, c: Ctx)
    requires ParseMany(p, key)(c).Ok?
    ensures key in c && c[key].Arr?
    ensures var xs := ParseMany(p, key)(c).value; var elems := c[key].elems;
      |xs| == |elems| &&
      forall i :: 0 <= i < |elems| ==> elems[i].Obj? && p(elems[i].fields) == Ok(xs[i])
  {
    ParsePrefixOk(p, c[key].elems, |c[key].elems|);
  }

  /** A list succeeds whenever the array is all objects that `p` accepts. */
  lemma ParseManyAllOk<A>(p: Rule<A>, key: string, c: Ctx)
    requires key in c && c[key].Arr?
    requires forall i :: 0 <= i < |c[key].elems| ==>
      c[key].elems[i].Obj? && p(c[key].elems[i].fields).Ok?
    ensures ParseMany(p, key)(c).Ok?
  {
    ParsePrefixAllOk(p, c[key].elems, |c[key].elems|);
  }

  /** The list loop: walks an unkeyed container over the array, reading each
      element as an object, running `p` on it and appending the result. */
  method RunParseMany<A>(p: Rule<A>, key: string, c: Ctx) returns (r: Result<seq<A>>)
    ensures r == ParseMany(p, key)(c)
  {
    var arr := NestedUnkeyed(c, KeyOf(key));
    if arr.Fail? {
      return Fail(arr.err);
    }
    var elems := arr.value;
    var cursor := new UnkeyedContainer(elems);
    var parsed: seq<A> := [];
    while !cursor.IsAtEnd()
      invariant cursor.elements == elems && cursor.currentIndex <= |elems|
      invariant ParsePrefix(p, elems, cursor.currentIndex) == Ok(parsed)
      decreases |elems| - cursor.currentIndex
    {
      ghost var i := cursor.currentIndex;
      var inner := cursor.NestedContainer();
      if inner.Fail? {
        assert ParsePrefix(p, elems, i + 1) == Fail(inner.err);
        ParsePrefixFailed(p, elems, i + 1, |elems|);
        return Fail(inner.err);
      }
      var a := p(inner.value);
      if a.Fail? {
        assert ParsePrefix(p, elems, i + 1) == Fail(a.err);
        ParsePrefixFailed(p, elems, i + 1, |elems|);
        return Fail(a.err);
      }
      parsed := parsed + [a.value];
    }
    r := Ok(parsed);
  }
}
