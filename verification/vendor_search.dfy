/**
 The vendor search boxes of the pages. Three variants exist:

 - field-wise (evaluation page, report page): the lower-cased term occurs in
   the lower-cased name, company or email, a missing company or email read as "";
 - concatenated (vendor management page): the lower-cased term occurs in the
   lower-cased template literal `${name} ${company} ${email}`, where a missing
   field is interpolated as the text "undefined" or "null";
 - optional-chaining (vendors page): as field-wise, but `v.company?.…` on a
   missing field yields `undefined`, which is falsy.

 Each keeps the matching vendors in their order.
 */
module VendorSearch {
  import opened Js
  import Seqs

  /** A vendor as the pages receive it from the vendor list endpoint. That
      endpoint serialises database rows, where a missing company or email is
      `null`; `Undefined` covers a record without the field at all, which the
      endpoint itself never sends. */
  datatype ClientVendor = ClientVendor(id: string, name: string, company: JsValue<string>, email: JsValue<string>)

  // ---------------------------------------------------------------------------
  // The three predicates and filters

  /** `v.name.toLowerCase().includes(t) || (v.company || "")… || (v.email || "")…` with `t = term.toLowerCase()`. */
  predicate FieldwiseMatch(term: string, v: ClientVendor) {
    var t := Lower(term);
    Includes(Lower(v.name), t) || Includes(Lower(OrEmpty(v.company)), t) || Includes(Lower(OrEmpty(v.email)), t)
  }

  /** `${v.name} ${v.company} ${v.email}`. */
  function Haystack(v: ClientVendor): string {
    v.name + " " + Interpolate(v.company) + " " + Interpolate(v.email)
  }

  /** `` `${v.name} ${v.company} ${v.email}`.toLowerCase().includes(search.toLowerCase()) ``. */
  predicate ConcatenatedMatch(term: string, v: ClientVendor) {
    Includes(Lower(Haystack(v)), Lower(term))
  }

  /** `x?.toLowerCase().includes(t)` as a truth value: a missing field gives `undefined`. */
  predicate OptionalIncludes(x: JsValue<string>, t: string) {
    x.Defined? && Includes(Lower(x.value), t)
  }

  /** `v.name.toLowerCase().includes(s) || v.company?.… || v.email?.…` with `s = search.toLowerCase()`. */
  predicate OptionalChainMatch(term: string, v: ClientVendor) {
    var t := Lower(term);
    Includes(Lower(v.name), t) || OptionalIncludes(v.company, t) || OptionalIncludes(v.email, t)
  }

  /** The field-wise filter of the evaluation and report pages. */
  function FieldwiseFilter(vs: seq<ClientVendor>, term: string): (r: seq<ClientVendor>)
    ensures Seqs.SubList(r, vs)
    ensures forall v :: v in r <==> v in vs && FieldwiseMatch(term, v)
  {
    Seqs.Filter(vs, (v: ClientVendor) => FieldwiseMatch(term, v))
  }

  /** The concatenated filter of the vendor management page. */
  function ConcatenatedFilter(vs: seq<ClientVendor>, term: string): (r: seq<ClientVendor>)
    ensures Seqs.SubList(r, vs)
    ensures forall v :: v in r <==> v in vs && ConcatenatedMatch(term, v)
  {
    Seqs.Filter(vs, (v: ClientVendor) => ConcatenatedMatch(term, v))
  }

  /** The optional-chaining filter of the vendors page. */
  function OptionalChainFilter(vs: seq<ClientVendor>, term: string): (r: seq<ClientVendor>)
    ensures Seqs.SubList(r, vs)
    ensures forall v :: v in r <==> v in vs && OptionalChainMatch(term, v)
  {
    Seqs.Filter(vs, (v: ClientVendor) => OptionalChainMatch(term, v))
  }

  // ---------------------------------------------------------------------------
  // Properties

  /** The field-wise search (the report page's vendor picker among them) keeps each
      matching vendor as many times as it is listed, and no other vendor. */
  lemma FieldwiseFilterCounts(vs: seq<ClientVendor>, term: string)
    ensures forall v :: multiset(FieldwiseFilter(vs, term))[v] == if FieldwiseMatch(term, v) then multiset(vs)[v] else 0
  {
    var p := (v: ClientVendor) => FieldwiseMatch(term, v);
    assert FieldwiseFilter(vs, term) == Seqs.Filter(vs, p);
  }

  /** An empty search keeps every vendor, in every variant. */
  lemma EmptyTermKeepsAll(vs: seq<ClientVendor>)
    ensures FieldwiseFilter(vs, "") == vs
    ensures ConcatenatedFilter(vs, "") == vs
    ensures OptionalChainFilter(vs, "") == vs
  {
    assert Lower("") == "";
    forall v: ClientVendor
      ensures FieldwiseMatch("", v) && ConcatenatedMatch("", v) && OptionalChainMatch("", v)
    {
      IncludesEmpty(Lower(v.name));
      IncludesEmpty(Lower(Haystack(v)));
    }
    Seqs.FilterKeepsAll(vs, (v: ClientVendor) => FieldwiseMatch("", v));
    Seqs.FilterKeepsAll(vs, (v: ClientVendor) => ConcatenatedMatch("", v));
    Seqs.FilterKeepsAll(vs, (v: ClientVendor) => OptionalChainMatch("", v));
  }

  /** Changing only the letter case of the term changes no result. */
  lemma TermCaseIrrelevant(vs: seq<ClientVendor>, term: string)
    ensures FieldwiseFilter(vs, Lower(term)) == FieldwiseFilter(vs, term)
    ensures ConcatenatedFilter(vs, Lower(term)) == ConcatenatedFilter(vs, term)
    ensures OptionalChainFilter(vs, Lower(term)) == OptionalChainFilter(vs, term)
  {
    LowerIdempotent(term);
    Seqs.FilterCongruent(vs, (v: ClientVendor) => FieldwiseMatch(Lower(term), v), (v: ClientVendor) => FieldwiseMatch(term, v));
    Seqs.FilterCongruent(vs, (v: ClientVendor) => ConcatenatedMatch(Lower(term), v), (v: ClientVendor) => ConcatenatedMatch(term, v));
    Seqs.FilterCongruent(vs, (v: ClientVendor) => OptionalChainMatch(Lower(term), v), (v: ClientVendor) => OptionalChainMatch(term, v));
  }

  /** A missing field matches nothing but the empty term under optional chaining,
      and the variant therefore agrees with the field-wise one on every input. */
  lemma OptionalChainAgreesWithFieldwise(vs: seq<ClientVendor>, term: string)
    ensures OptionalChainFilter(vs, term) == FieldwiseFilter(vs, term)
  {
    forall v: ClientVendor
      ensures OptionalChainMatch(term, v) == FieldwiseMatch(term, v)
    {
      var t := Lower(term);
      assert Lower("") == "";
      EmptyIncludesOnlyEmpty(t);
      if t == [] {
        IncludesEmpty(Lower(v.name));
      }
    }
    Seqs.FilterCongruent(vs, (v: ClientVendor) => OptionalChainMatch(term, v), (v: ClientVendor) => FieldwiseMatch(term, v));
  }

  /** Under optional chaining a missing company or email never produces the match. */
  lemma MissingFieldNeverMatches(x: JsValue<string>, t: string)
    requires !x.Defined?
    ensures !OptionalIncludes(x, t)
  {
  }

  /** A term spanning the name and the company matches the concatenated string,
      though it is in no single field. */
  lemma ConcatenatedMatchesAcrossBoundary(v: ClientVendor)
    requires v.company.Defined? && !v.email.Defined?
    ensures ConcatenatedMatch(v.name + " " + v.company.value, v)
    ensures !FieldwiseMatch(v.name + " " + v.company.value, v)
  {
    var term := v.name + " " + v.company.value;
    var rest := " " + Interpolate(v.email);
    assert Haystack(v) == term + rest;
    LowerConcat(term, rest);
    IncludesInMiddle([], Lower(term), Lower(rest));
    assert [] + Lower(term) + Lower(rest) == Lower(Haystack(v));
    assert |Lower(term)| > |Lower(v.name)| && |Lower(term)| > |Lower(v.company.value)|;
    assert OrEmpty(v.email) == "" && Lower("") == "";
  }

  /** A missing company is interpolated as its literal text, so searching "null"
      finds a vendor whose company is `null`, the form the list endpoint sends;
      an absent field would likewise be found by "undefined". */
  lemma MissingCompanyMatchesLiteral(v: ClientVendor)
    requires !v.company.Defined?
    ensures ConcatenatedMatch(if v.company.Null? then "null" else "undefined", v)
  {
    var word := Interpolate(v.company);
    var before := v.name + " ";
    var after := " " + Interpolate(v.email);
    assert Haystack(v) == before + word + after;
    LowerConcat(before + word, after);
    LowerConcat(before, word);
    assert Lower(word) == word;
    IncludesInMiddle(Lower(before), word, Lower(after));
  }

  /** A name match alone keeps the vendor in every variant. */
  lemma NameMatchSuffices(term: string, v: ClientVendor)
    requires Includes(Lower(v.name), Lower(term))
    ensures FieldwiseMatch(term, v) && OptionalChainMatch(term, v)
    ensures ConcatenatedMatch(term, v)
  {
    var i :| OccursAt(Lower(v.name), Lower(term), i);
    var rest := " " + Interpolate(v.company) + " " + Interpolate(v.email);
    assert Haystack(v) == v.name + rest;
    LowerConcat(v.name, rest);
    assert Lower(Haystack(v))[i..i + |Lower(term)|] == Lower(v.name)[i..i + |Lower(term)|];
    assert OccursAt(Lower(Haystack(v)), Lower(term), i);
  }
}
