/** The search filter compiler (`get_query`): the terms of a query string
    folded into an AND, one conjunct per term, of ORs, one
    `field__icontains=term` lookup per search field. */
module SearchQuery {
  import opened Wrappers
  import opened Search

  const LookupSuffix: string := "__icontains"

  /** A Django `Q` object: one keyword lookup, or two `Q`s combined with `&`
      or `|`. */
  datatype Filter = Lookup(key: string, value: string) | And(left: Filter, right: Filter) | Or(left: Filter, right: Filter)

  /** `Q(**{field + "__icontains": term})`. */
  function Clause(field: string, term: string): Filter {
    Lookup(field + LookupSuffix, term)
  }

  /** One lookup per field, in field order. */
  function Clauses(fields: seq<string>, term: string): seq<Filter> {
    seq(|fields|, j requires 0 <= j < |fields| => Clause(fields[j], term))
  }

  /** The operands of a left-nested `|` chain, left to right. */
  function Disjuncts(f: Filter): seq<Filter> {
    match f
    case Or(l, r) => Disjuncts(l) + [r]
    case _ => [f]
  }

  /** The operands of a left-nested `&` chain, left to right. */
  function Conjuncts(f: Filter): seq<Filter> {
    match f
    case And(l, r) => Conjuncts(l) + [r]
    case _ => [f]
  }

  /** `f` is the disjunction for `term`: not itself a conjunction, and its
      operands are exactly the term's lookups on `fields`, in order. */
  predicate TermDisjunction(f: Filter, fields: seq<string>, term: string) {
    !f.And? && Disjuncts(f) == Clauses(fields, term)
  }

  /** The inner loop of `get_query` over the remaining `fields`, with the
      disjunction built so far in `acc`. */
  function OrLoop(fields: seq<string>, term: string, acc: Option<Filter>): (r: Option<Filter>)
    requires acc.Some? ==> !acc.value.And?
    ensures r.None? <==> acc.None? && |fields| == 0
    ensures r.Some? ==> !r.value.And?
    ensures r.Some? ==>
      Disjuncts(r.value) == (if acc.Some? then Disjuncts(acc.value) else []) + Clauses(fields, term)
    decreases |fields|
  {
    if |fields| == 0 then acc
    else
      var q := Clause(fields[0], term);
      var r := OrLoop(fields[1..], term, if acc.None? then Some(q) else Some(Or(acc.value, q)));
      assert Clauses(fields, term) == [q] + Clauses(fields[1..], term);
      r
  }

  /** The outer loop of `get_query` over the remaining `terms`, with the
      conjunction built so far in `acc`. A conjunction exists only once a
      field has produced a lookup, so `&` is never applied to `None`. */
  function AndLoop(terms: seq<string>, fields: seq<string>, acc: Option<Filter>): (r: Option<Filter>)
    requires acc.Some? ==> |fields| > 0
    ensures r.None? <==> acc.None? && (|terms| == 0 || |fields| == 0)
    decreases |terms|
  {
    if |terms| == 0 then acc
    else
      var orQuery := OrLoop(fields, terms[0], None);
      if orQuery.None? then
        AndLoop(terms[1..], fields, acc)
      else
        var next := if acc.None? then orQuery else Some(And(acc.value, orQuery.value));
        AndLoop(terms[1..], fields, next)
  }

  /** The outer loop appends one conjunct per term, in order, each the term's
      disjunction over the fields, after the conjuncts already in `acc`. */
  lemma {:induction false} AndLoopConjuncts(terms: seq<string>, fields: seq<string>, acc: Option<Filter>)
    requires acc.Some? ==> |fields| > 0
    requires AndLoop(terms, fields, acc).Some?
    ensures var before := if acc.Some? then Conjuncts(acc.value) else [];
      var cs := Conjuncts(AndLoop(terms, fields, acc).value);
      && |cs| == |before| + |terms|
      && cs[..|before|] == before
      && forall i :: 0 <= i < |terms| ==> TermDisjunction(cs[|before| + i], fields, terms[i])
    decreases |terms|
  {
    if |terms| > 0 {
      var orQuery := OrLoop(fields, terms[0], None);
      assert |fields| > 0;
      var next := if acc.None? then orQuery else Some(And(acc.value, orQuery.value));
      var before := if acc.Some? then Conjuncts(acc.value) else [];
      assert Conjuncts(next.value) == before + [orQuery.value];
      assert AndLoop(terms, fields, acc) == AndLoop(terms[1..], fields, next);
      AndLoopConjuncts(terms[1..], fields, next);
      AndLoopStep(Conjuncts(AndLoop(terms, fields, acc).value), before, orQuery.value, terms, fields);
    }
  }

  /** One step of the outer loop: the disjunction for the first term followed
      by those for the rest gives one per term. */
  lemma AndLoopStep(cs: seq<Filter>, before: seq<Filter>, o: Filter, terms: seq<string>, fields: seq<string>)
    requires |terms| > 0 && TermDisjunction(o, fields, terms[0])
    requires |cs| == |before| + |terms| && cs[..|before| + 1] == before + [o]
    requires forall i :: 0 <= i < |terms| - 1 ==> TermDisjunction(cs[|before| + 1 + i], fields, terms[1..][i])
    ensures cs[..|before|] == before
    ensures forall i :: 0 <= i < |terms| ==> TermDisjunction(cs[|before| + i], fields, terms[i])
  {
    assert cs[..|before|] == cs[..|before| + 1][..|before|];
    assert cs[|before|] == cs[..|before| + 1][|before|];
    forall i | 0 < i < |terms| ensures TermDisjunction(cs[|before| + i], fields, terms[i]) {
      assert terms[i] == terms[1..][i - 1];
      assert cs[|before| + i] == cs[|before| + 1 + (i - 1)];
    }
  }

  /** `get_query`: `None` when the query has no terms (it is all whitespace)
      or there are no fields; otherwise a left-nested conjunction with one
      operand per term, in order, each the term's disjunction over the
      fields. The field names are used as given: nothing checks them against
      a list of permitted fields. */
  function GetQuery(query: string, fields: seq<string>): (r: Option<Filter>)
    ensures r.None? <==> AllSpace(query) || |fields| == 0
    ensures r.Some? ==>
      var terms := NormalizeQuery(query);
      && |Conjuncts(r.value)| == |terms|
      && forall i :: 0 <= i < |terms| ==> TermDisjunction(Conjuncts(r.value)[i], fields, terms[i])
  {
    var r := AndLoop(NormalizeQuery(query), fields, None);
    if r.Some? then AndLoopConjuncts(NormalizeQuery(query), fields, None); r else r
  }

  /** What a filter selects, given the storage's decision `hit(key, term)`
      for a single lookup on the row at hand. */
  function Holds(f: Filter, hit: (string, string) -> bool): bool {
    match f
    case Lookup(k, v) => hit(k, v)
    case And(l, r) => Holds(l, hit) && Holds(r, hit)
    case Or(l, r) => Holds(l, hit) || Holds(r, hit)
  }

  /** Every filter of `fs` selects the row. */
  predicate AllHold(fs: seq<Filter>, hit: (string, string) -> bool) {
    forall i :: 0 <= i < |fs| ==> Holds(fs[i], hit)
  }

  /** Some filter of `fs` selects the row. */
  predicate SomeHolds(fs: seq<Filter>, hit: (string, string) -> bool) {
    exists i :: 0 <= i < |fs| && Holds(fs[i], hit)
  }

  lemma AllHoldSnoc(fs: seq<Filter>, f: Filter, hit: (string, string) -> bool)
    ensures AllHold(fs + [f], hit) <==> AllHold(fs, hit) && Holds(f, hit)
  {
    var gs := fs + [f];
    assert forall i :: 0 <= i < |fs| ==> gs[i] == fs[i];
    assert gs[|fs|] == f;
  }

  lemma SomeHoldsSnoc(fs: seq<Filter>, f: Filter, hit: (string, string) -> bool)
    ensures SomeHolds(fs + [f], hit) <==> SomeHolds(fs, hit) || Holds(f, hit)
  {
    var gs := fs + [f];
    assert forall i :: 0 <= i < |fs| ==> gs[i] == fs[i];
    assert gs[|fs|] == f;
  }

  /** A left-nested conjunction holds exactly when all its operands do. */
  lemma {:induction false} HoldsConjuncts(f: Filter, hit: (string, string) -> bool)
    ensures Holds(f, hit) <==> AllHold(Conjuncts(f), hit)
  {
    match f
    case And(l, r) =>
      HoldsConjuncts(l, hit);
      AllHoldSnoc(Conjuncts(l), r, hit);
    case _ =>
      assert Conjuncts(f)[0] == f;
  }

  /** A left-nested disjunction holds exactly when one of its operands does. */
  lemma {:induction false} HoldsDisjuncts(f: Filter, hit: (string, string) -> bool)
    ensures Holds(f, hit) <==> SomeHolds(Disjuncts(f), hit)
  {
    match f
    case Or(l, r) =>
      HoldsDisjuncts(l, hit);
      SomeHoldsSnoc(Disjuncts(l), r, hit);
    case _ =>
      assert Disjuncts(f)[0] == f;
  }

  /** The disjunction for a term holds exactly when one field's lookup does. */
  lemma TermSemantics(f: Filter, fields: seq<string>, term: string, hit: (string, string) -> bool)
    requires TermDisjunction(f, fields, term)
    ensures Holds(f, hit) <==> exists j :: 0 <= j < |fields| && hit(fields[j] + LookupSuffix, term)
  {
    HoldsDisjuncts(f, hit);
    var ds := Disjuncts(f);
    assert forall j :: 0 <= j < |fields| ==> ds[j] == Clause(fields[j], term);
  }

  /** `term` is found by the lookup on at least one of `fields`. */
  predicate Found(fields: seq<string>, term: string, hit: (string, string) -> bool) {
    exists j :: 0 <= j < |fields| && hit(fields[j] + LookupSuffix, term)
  }

  /** Every term is found by some field's lookup. */
  predicate AllFound(terms: seq<string>, fields: seq<string>, hit: (string, string) -> bool) {
    forall i :: 0 <= i < |terms| ==> Found(fields, terms[i], hit)
  }

  /** A conjunction of term disjunctions holds exactly when every term is
      found in at least one field. */
  lemma FilterSemantics(f: Filter, terms: seq<string>, fields: seq<string>, hit: (string, string) -> bool)
    requires |Conjuncts(f)| == |terms|
    requires forall i :: 0 <= i < |terms| ==> TermDisjunction(Conjuncts(f)[i], fields, terms[i])
    ensures Holds(f, hit) <==> AllFound(terms, fields, hit)
  {
    var cs := Conjuncts(f);
    HoldsConjuncts(f, hit);
    forall i | 0 <= i < |terms|
      ensures Holds(cs[i], hit) <==> Found(fields, terms[i], hit)
    {
      TermSemantics(cs[i], fields, terms[i], hit);
    }
    if Holds(f, hit) {
      forall i | 0 <= i < |terms| ensures Found(fields, terms[i], hit) {
        assert Holds(cs[i], hit);
      }
    } else {
      var i :| 0 <= i < |cs| && !Holds(cs[i], hit);
      assert !Found(fields, terms[i], hit);
    }
  }

  /** A row matches the compiled filter exactly when every term is found,
      case-insensitively, in at least one of the fields. */
  lemma SearchSemantics(query: string, fields: seq<string>, hit: (string, string) -> bool)
    requires GetQuery(query, fields).Some?
    ensures Holds(GetQuery(query, fields).value, hit) <==> AllFound(NormalizeQuery(query), fields, hit)
  {
    FilterSemantics(GetQuery(query, fields).value, NormalizeQuery(query), fields, hit);
  }

  lemma TwoFieldDisjunction(fields: seq<string>, term: string)
    requires |fields| == 2
    ensures OrLoop(fields, term, None) == Some(Or(Clause(fields[0], term), Clause(fields[1], term)))
  {
    var c0, c1 := Clause(fields[0], term), Clause(fields[1], term);
    assert fields[1..][0] == fields[1] && fields[1..][1..] == [];
    assert OrLoop(fields, term, None) == OrLoop(fields[1..], term, Some(c0));
    assert OrLoop(fields[1..], term, Some(c0)) == OrLoop(fields[1..][1..], term, Some(Or(c0, c1)));
  }

  lemma TwoTermConjunction(terms: seq<string>, fields: seq<string>)
    requires |terms| == 2 && |fields| > 0
    ensures AndLoop(terms, fields, None)
         == Some(And(OrLoop(fields, terms[0], None).value, OrLoop(fields, terms[1], None).value))
  {
    var o0, o1 := OrLoop(fields, terms[0], None), OrLoop(fields, terms[1], None);
    assert o0.Some? && o1.Some?;
    assert terms[1..][0] == terms[1] && terms[1..][1..] == [];
    assert AndLoop(terms, fields, None) == AndLoop(terms[1..], fields, o0);
    assert AndLoop(terms[1..], fields, o0) == AndLoop(terms[1..][1..], fields, Some(And(o0.value, o1.value)));
  }

  /** `"red shoes" small` over the fields `name` and `desc`: two conjuncts,
      each a two-field disjunction. */
  lemma RedShoesSmall()
    ensures GetQuery("\"red shoes\" small", ["name", "desc"]) == Some(And(
      Or(Clause("name", "red shoes"), Clause("desc", "red shoes")),
      Or(Clause("name", "small"), Clause("desc", "small"))))
  {
    var query, fields := "\"red shoes\" small", ["name", "desc"];
    PhraseThenWord();
    var terms := NormalizeQuery(query);
    TwoTermConjunction(terms, fields);
    TwoFieldDisjunction(fields, terms[0]);
    TwoFieldDisjunction(fields, terms[1]);
  }
}
