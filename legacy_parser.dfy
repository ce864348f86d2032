/** The earlier copy of the engine (field decoding, single-key descent, the
    document runner and the key type) shares its definitions with modules
    Parsers and Coding. The lemmas here state what that copy promises. */
module LegacyParser {
  import opened JsonModel
  import opened Coding
  import opened Parsers

  /** Decoding a field reads that field and nothing else of the context. */
  lemma ValueReadsOnlyItsField<A>(d: Decoder<A>, key: string, c1: Ctx, c2: Ctx)
    requires key in c1 <==> key in c2
    requires key in c1 ==> c1[key] == c2[key]
    ensures Parse(d, key)(c1) == Parse(d, key)(c2)
  {
  }

  /** Descending at a key reads that field and nothing else of the context. */
  lemma NestedContainerReadsOnlyItsField(key: string, c1: Ctx, c2: Ctx)
    requires key in c1 <==> key in c2
    requires key in c1 ==> c1[key] == c2[key]
    ensures NestedContainer(key)(c1) == NestedContainer(key)(c2)
  {
  }

  /** A document whose root is not an object fails before any rule runs. */
  lemma RunRejectsNonObjectRoot<A>(p: Rule<A>, q: Rule<A>, doc: Json)
    requires !doc.Obj?
    ensures Run(p, doc) == Run(q, doc) == Fail(NotObject)
  {
  }

  /** Keys are exactly their strings: both string initialisers build the same
      key, the string survives the round trip, and no key is integer-valued. */
  lemma KeysAreStrings(s: string, k: CodingKey, n: int)
    ensures KeyFromStringValue(s) == Some(KeyOf(s))
    ensures KeyOf(k.stringValue) == k
    ensures KeyFromIntValue(n).None? && IntValue(k).None?
  {
  }
}
