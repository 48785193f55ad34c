/** `filter_properties`: the parameterised query it builds, the store-side
    evaluation of that query, and the normalised rows it hands back. Every
    failure is masked as an empty result. */
module Filtering {
  import opened Listings

  /** The optional arguments: a (min, max) price pair, minimum bedroom and
      bathroom counts, an exact city. */
  datatype Filters = Filters(
    priceRange: Option<(real, real)>,
    bedrooms: Option<int>,
    bathrooms: Option<int>,
    city: Option<string>)

  const NoFilters: Filters := Filters(None, None, None, None)

  // Python truthiness of each argument: a pair is truthy whatever it holds,
  // a count is truthy unless it is 0, a string unless it is empty.
  predicate PriceActive(f: Filters) { f.priceRange.Some? }
  predicate BedroomsActive(f: Filters) { f.bedrooms.Some? && f.bedrooms.value != 0 }
  predicate BathroomsActive(f: Filters) { f.bathrooms.Some? && f.bathrooms.value != 0 }
  predicate CityActive(f: Filters) { f.city.Some? && f.city.value != "" }

  /* ---------------------------------------------------------------------
     The query text and its bound parameters
     --------------------------------------------------------------------- */

  datatype Clause = PriceBetween | BedroomsAtLeast | BathroomsAtLeast | CityEquals

  /** A bound parameter: a number or a string. */
  datatype Param = Number(r: real) | Word(s: string)

  const SelectAll: string := "SELECT * FROM listings WHERE 1=1"

  /** The placeholder a bound parameter fills. */
  const Hole: string := "?"

  function ClauseText(c: Clause): (s: string)
    ensures |s| > 0
  {
    match c
    case PriceBetween => " AND price BETWEEN " + Hole + " AND " + Hole
    case BedroomsAtLeast => " AND bedrooms >= " + Hole
    case BathroomsAtLeast => " AND bathrooms >= " + Hole
    case CityEquals => " AND city = " + Hole
  }

  /** The number of `?` placeholders a clause carries. */
  function Arity(c: Clause): nat {
    if c == PriceBetween then 2 else 1
  }

  function Placeholders(cs: seq<Clause>): nat {
    if cs == [] then 0 else Arity(cs[0]) + Placeholders(cs[1..])
  }

  /** The position of a clause in the fixed order the builder appends them. */
  function Rank(c: Clause): nat {
    match c
    case PriceBetween => 0
    case BedroomsAtLeast => 1
    case BathroomsAtLeast => 2
    case CityEquals => 3
  }

  function Render(cs: seq<Clause>): string {
    if cs == [] then "" else ClauseText(cs[0]) + Render(cs[1..])
  }

  function QueryText(cs: seq<Clause>): string {
    SelectAll + Render(cs)
  }

  /** Whether the builder appends the clause for these filters. */
  predicate Active(f: Filters, c: Clause) {
    match c
    case PriceBetween => PriceActive(f)
    case BedroomsAtLeast => BedroomsActive(f)
    case BathroomsAtLeast => BathroomsActive(f)
    case CityEquals => CityActive(f)
  }

  /** The parameters an appended clause binds. */
  function ArgsOf(f: Filters, c: Clause): (args: seq<Param>)
    requires Active(f, c)
    ensures |args| == Arity(c)
  {
    match c
    case PriceBetween => [Number(f.priceRange.value.0), Number(f.priceRange.value.1)]
    case BedroomsAtLeast => [Number(f.bedrooms.value as real)]
    case BathroomsAtLeast => [Number(f.bathrooms.value as real)]
    case CityEquals => [Word(f.city.value)]
  }

  function Piece(f: Filters, c: Clause): seq<Clause> {
    if Active(f, c) then [c] else []
  }

  function PieceArgs(f: Filters, c: Clause): (ps: seq<Param>)
    ensures |ps| == Placeholders(Piece(f, c))
  {
    if Active(f, c) then ArgsOf(f, c) else []
  }

  /** The clauses appended for the truthy filters, in the builder's order. */
  function ActiveClauses(f: Filters): seq<Clause>
  {
    Piece(f, PriceBetween) + Piece(f, BedroomsAtLeast) + Piece(f, BathroomsAtLeast) + Piece(f, CityEquals)
  }

  /** The parameters, in clause order; the price pair gives min then max. */
  function BoundParams(f: Filters): seq<Param>
  {
    PieceArgs(f, PriceBetween) + PieceArgs(f, BedroomsAtLeast) + PieceArgs(f, BathroomsAtLeast)
    + PieceArgs(f, CityEquals)
  }

  /** The builder: start from the base query and append one clause and its
      parameters for each truthy filter. */
  method BuildQuery(f: Filters) returns (query: string, params: seq<Param>)
    ensures query == QueryText(ActiveClauses(f))
    ensures params == BoundParams(f)
    ensures |params| == Placeholders(ActiveClauses(f))
  {
    query := SelectAll;
    params := [];
    ghost var cs: seq<Clause> := [];
    assert query == QueryText(cs) by { assert Render([]) == ""; }
    if PriceActive(f) {
      AppendClause(cs, PriceBetween);
      query := query + ClauseText(PriceBetween);
      params := params + [Number(f.priceRange.value.0), Number(f.priceRange.value.1)];
      cs := cs + [PriceBetween];
    }
    assert cs == Piece(f, PriceBetween) && params == PieceArgs(f, PriceBetween);
    assert query == QueryText(cs);
    ghost var cs1, ps1 := cs, params;
    if BedroomsActive(f) {
      AppendClause(cs, BedroomsAtLeast);
      query := query + ClauseText(BedroomsAtLeast);
      params := params + [Number(f.bedrooms.value as real)];
      cs := cs + [BedroomsAtLeast];
    }
    assert cs == cs1 + Piece(f, BedroomsAtLeast) && params == ps1 + PieceArgs(f, BedroomsAtLeast);
    assert query == QueryText(cs);
    ghost var cs2, ps2 := cs, params;
    if BathroomsActive(f) {
      AppendClause(cs, BathroomsAtLeast);
      query := query + ClauseText(BathroomsAtLeast);
      params := params + [Number(f.bathrooms.value as real)];
      cs := cs + [BathroomsAtLeast];
    }
    assert cs == cs2 + Piece(f, BathroomsAtLeast) && params == ps2 + PieceArgs(f, BathroomsAtLeast);
    assert query == QueryText(cs);
    ghost var cs3, ps3 := cs, params;
    if CityActive(f) {
      AppendClause(cs, CityEquals);
      query := query + ClauseText(CityEquals);
      params := params + [Word(f.city.value)];
      cs := cs + [CityEquals];
    }
    assert cs == cs3 + Piece(f, CityEquals) && params == ps3 + PieceArgs(f, CityEquals);
    assert query == QueryText(cs);
    assert cs == ActiveClauses(f);
    ParamsCount(f);
  }

  /** Appending a clause's text to the query text of `cs` gives the query
      text of `cs` followed by that clause. */
  lemma AppendClause(cs: seq<Clause>, c: Clause)
    ensures QueryText(cs + [c]) == QueryText(cs) + ClauseText(c)
  {
    RenderAppend(cs, [c]);
    assert Render([c]) == ClauseText(c) + Render([]);
    assert Render([]) == "";
    Associative(SelectAll, Render(cs), ClauseText(c));
  }

  lemma Associative(a: string, b: string, c: string)
    ensures (a + b) + c == a + (b + c)
  {
  }

  lemma {:induction false} RenderAppend(a: seq<Clause>, b: seq<Clause>)
    ensures Render(a + b) == Render(a) + Render(b)
  {
    if a == [] {
      assert a + b == b;
    } else {
      assert (a + b)[1..] == a[1..] + b;
      RenderAppend(a[1..], b);
    }
  }

  lemma {:induction false} PlaceholdersAppend(a: seq<Clause>, b: seq<Clause>)
    ensures Placeholders(a + b) == Placeholders(a) + Placeholders(b)
  {
    if a == [] {
      assert a + b == b;
    } else {
      assert (a + b)[1..] == a[1..] + b;
      PlaceholdersAppend(a[1..], b);
    }
  }

  /** The number of `?` characters in a text. */
  function Marks(s: string): nat {
    if s == "" then 0 else (if s[0] == '?' then 1 else 0) + Marks(s[1..])
  }

  lemma {:induction false} MarksAppend(a: string, b: string)
    ensures Marks(a + b) == Marks(a) + Marks(b)
  {
    if a == "" {
      assert a + b == b;
    } else {
      assert (a + b)[0] == a[0] && (a + b)[1..] == a[1..] + b;
      MarksAppend(a[1..], b);
    }
  }

  lemma {:induction false} NoMarks(s: string)
    requires '?' !in s
    ensures Marks(s) == 0
  {
    if s != "" {
      assert s[0] in s;
      assert forall c :: c in s[1..] ==> c in s;
      NoMarks(s[1..]);
    }
  }

  lemma ClauseMarks(c: Clause)
    ensures Marks(ClauseText(c)) == Arity(c)
  {
    match c
    case PriceBetween => PriceMarks();
    case BedroomsAtLeast => BedroomsMarks();
    case BathroomsAtLeast => BathroomsMarks();
    case CityEquals => CityMarks();
  }

  lemma HoleMarks() ensures Marks(Hole) == 1 {}

  lemma PriceMarks() ensures Marks(ClauseText(PriceBetween)) == 2 {
    HoleMarks();
    PriceTextMarks();
    AndTextMarks();
    MarksAppend(" AND price BETWEEN ", Hole);
    MarksAppend(" AND price BETWEEN " + Hole, " AND ");
    MarksAppend(" AND price BETWEEN " + Hole + " AND ", Hole);
  }

  lemma BedroomsMarks() ensures Marks(ClauseText(BedroomsAtLeast)) == 1 {
    HoleMarks();
    BedroomsTextMarks();
    MarksAppend(" AND bedrooms >= ", Hole);
  }

  lemma BathroomsMarks() ensures Marks(ClauseText(BathroomsAtLeast)) == 1 {
    HoleMarks();
    BathroomsTextMarks();
    MarksAppend(" AND bathrooms >= ", Hole);
  }

  lemma CityMarks() ensures Marks(ClauseText(CityEquals)) == 1 {
    HoleMarks();
    CityTextMarks();
    MarksAppend(" AND city = ", Hole);
  }

  lemma PriceTextMarks() ensures Marks(" AND price BETWEEN ") == 0 {
    NoMarks(" AND price BETWEEN ");
  }

  lemma AndTextMarks() ensures Marks(" AND ") == 0 {
    NoMarks(" AND ");
  }

  lemma BedroomsTextMarks() ensures Marks(" AND bedrooms >= ") == 0 {
    NoMarks(" AND bedrooms >= ");
  }

  lemma BathroomsTextMarks() ensures Marks(" AND bathrooms >= ") == 0 {
    NoMarks(" AND bathrooms >= ");
  }

  lemma CityTextMarks() ensures Marks(" AND city = ") == 0 {
    NoMarks(" AND city = ");
  }

  lemma BaseMarks() ensures Marks(SelectAll) == 0 {
    NoMarks(SelectAll);
  }

  lemma {:induction false} RenderMarks(cs: seq<Clause>)
    ensures Marks(Render(cs)) == Placeholders(cs)
  {
    if cs != [] {
      RenderMarks(cs[1..]);
      MarksAppend(ClauseText(cs[0]), Render(cs[1..]));
      ClauseMarks(cs[0]);
    }
  }

  /** The query text holds exactly one `?` per bound parameter. */
  lemma PlaceholdersMatchParams(f: Filters)
    ensures Marks(QueryText(ActiveClauses(f))) == |BoundParams(f)|
  {
    var cs := ActiveClauses(f);
    RenderMarks(cs);
    MarksAppend(SelectAll, Render(cs));
    BaseMarks();
    ParamsCount(f);
  }

  lemma ParamsCount(f: Filters)
    ensures |BoundParams(f)| == Placeholders(ActiveClauses(f))
  {
    var p, b, ba, c := Piece(f, PriceBetween), Piece(f, BedroomsAtLeast), Piece(f, BathroomsAtLeast), Piece(f, CityEquals);
    PlaceholdersAppend(p, b);
    PlaceholdersAppend(p + b, ba);
    PlaceholdersAppend(p + b + ba, c);
  }

  /** The text always begins with the base query, and it is fixed by which
      filters are truthy: no filter value ever reaches it. */
  lemma QueryTextIgnoresValues(f: Filters, g: Filters)
    requires PriceActive(f) == PriceActive(g) && BedroomsActive(f) == BedroomsActive(g)
    requires BathroomsActive(f) == BathroomsActive(g) && CityActive(f) == CityActive(g)
    ensures SelectAll <= QueryText(ActiveClauses(f))
    ensures QueryText(ActiveClauses(f)) == QueryText(ActiveClauses(g))
  {
  }

  /** A zero count, an empty city or an absent price pair contributes neither
      a clause nor a parameter. */
  lemma FalsyFiltersAddNothing(f: Filters)
    ensures ActiveClauses(f.(bedrooms := Some(0))) == ActiveClauses(f.(bedrooms := None))
    ensures BoundParams(f.(bedrooms := Some(0))) == BoundParams(f.(bedrooms := None))
    ensures ActiveClauses(f.(bathrooms := Some(0))) == ActiveClauses(f.(bathrooms := None))
    ensures BoundParams(f.(bathrooms := Some(0))) == BoundParams(f.(bathrooms := None))
    ensures ActiveClauses(f.(city := Some(""))) == ActiveClauses(f.(city := None))
    ensures BoundParams(f.(city := Some(""))) == BoundParams(f.(city := None))
    ensures ActiveClauses(NoFilters) == [] && BoundParams(NoFilters) == []
  {
    ZeroBedroomsAddNothing(f);
    ZeroBathroomsAddNothing(f);
    EmptyCityAddsNothing(f);
  }

  lemma ZeroBedroomsAddNothing(f: Filters)
    ensures ActiveClauses(f.(bedrooms := Some(0))) == ActiveClauses(f.(bedrooms := None))
    ensures BoundParams(f.(bedrooms := Some(0))) == BoundParams(f.(bedrooms := None))
  {
  }

  lemma ZeroBathroomsAddNothing(f: Filters)
    ensures ActiveClauses(f.(bathrooms := Some(0))) == ActiveClauses(f.(bathrooms := None))
    ensures BoundParams(f.(bathrooms := Some(0))) == BoundParams(f.(bathrooms := None))
  {
  }

  lemma EmptyCityAddsNothing(f: Filters)
    ensures ActiveClauses(f.(city := Some(""))) == ActiveClauses(f.(city := None))
    ensures BoundParams(f.(city := Some(""))) == BoundParams(f.(city := None))
  {
  }

  /** Clauses appear in the fixed order price, bedrooms, bathrooms, city,
      each exactly when its filter is truthy. */
  lemma ClauseOrder(f: Filters)
    ensures forall i, j :: 0 <= i < j < |ActiveClauses(f)| ==> Rank(ActiveClauses(f)[i]) < Rank(ActiveClauses(f)[j])
    ensures forall c :: c in ActiveClauses(f) <==> Active(f, c)
  {
  }

  /** The price pair binds min then max ahead of every other parameter; the
      city, when given, is the last parameter. */
  lemma ParamOrder(f: Filters)
    ensures PriceActive(f) ==> |BoundParams(f)| >= 2 && BoundParams(f)[..2] == [Number(f.priceRange.value.0), Number(f.priceRange.value.1)]
    ensures CityActive(f) ==> |BoundParams(f)| > 0 && BoundParams(f)[|BoundParams(f)| - 1] == Word(f.city.value)
  {
  }

  /* ---------------------------------------------------------------------
     The store side: the query text is parsed back and evaluated with its
     parameters bound positionally
     --------------------------------------------------------------------- */

  /** SQL `x BETWEEN lo AND hi`: NULL compares false, and an infinity lies
      outside any finite range. */
  predicate Between(n: Num, lo: real, hi: real) {
    n.Finite? && lo <= n.value <= hi
  }

  /** SQL `x >= v`: NULL compares false, `Inf` exceeds every number. */
  predicate AtLeast(n: Num, v: real) {
    (n.Finite? && n.value >= v) || n.PosInf?
  }

  /** The clause with its own parameters bound. A number column compared
      with a string parameter, or the city with a number, never matches. */
  predicate ClauseHolds(c: Clause, args: seq<Param>, l: Listing)
    requires |args| == Arity(c)
  {
    match c
    case PriceBetween => args[0].Number? && args[1].Number? && Between(l.price, args[0].r, args[1].r)
    case BedroomsAtLeast => args[0].Number? && AtLeast(l.bedrooms, args[0].r)
    case BathroomsAtLeast => args[0].Number? && AtLeast(l.bathrooms, args[0].r)
    case CityEquals => args[0].Word? && l.city == Str(args[0].s)
  }

  /** Each clause takes the next `Arity` parameters, left to right. */
  predicate AllHold(cs: seq<Clause>, ps: seq<Param>, l: Listing)
    requires |ps| == Placeholders(cs)
  {
    cs == [] || (ClauseHolds(cs[0], ps[..Arity(cs[0])], l) && AllHold(cs[1..], ps[Arity(cs[0])..], l))
  }

  /** The rows of a table the WHERE clause keeps, in table order. */
  function Where(t: Table, cs: seq<Clause>, ps: seq<Param>): (r: Table)
    requires |ps| == Placeholders(cs)
    ensures |r| <= |t|
    ensures forall l :: l in r <==> l in t && AllHold(cs, ps, l)
    ensures forall l :: multiset(r)[l] == if AllHold(cs, ps, l) then multiset(t)[l] else 0
  {
    if t == [] then []
    else
      assert t == [t[0]] + t[1..];
      (if AllHold(cs, ps, t[0]) then [t[0]] else []) + Where(t[1..], cs, ps)
  }

  /** The clause whose text starts the remaining WHERE text, if any. */
  function LeadingClause(s: string): (r: Option<Clause>)
    ensures r.Some? ==> ClauseText(r.value) <= s
  {
    if ClauseText(PriceBetween) <= s then Some(PriceBetween)
    else if ClauseText(BedroomsAtLeast) <= s then Some(BedroomsAtLeast)
    else if ClauseText(BathroomsAtLeast) <= s then Some(BathroomsAtLeast)
    else if ClauseText(CityEquals) <= s then Some(CityEquals)
    else None
  }

  function ParseClauses(s: string): Option<seq<Clause>>
    decreases |s|
  {
    if s == "" then Some([])
    else match LeadingClause(s)
      case None => None
      case Some(c) =>
        match ParseClauses(s[|ClauseText(c)|..])
        case None => None
        case Some(cs) => Some([c] + cs)
  }

  /** Read a query text back into its clauses; None for any other text. */
  function ParseQuery(q: string): Option<seq<Clause>> {
    if SelectAll <= q then ParseClauses(q[|SelectAll|..]) else None
  }

  /** `pd.read_sql(query, conn, params=params)` against the store. */
  function Execute(query: string, params: seq<Param>, tables: map<string, Table>): (r: Result<Table>)
    ensures r.Failure? ==> !r.error.SqliteError?
    ensures r.Success? <==>
      ParseQuery(query).Some? && ListingsTable in tables && |params| == Placeholders(ParseQuery(query).value)
    ensures ParseQuery(query).Some? && ListingsTable !in tables ==> r == Failure(MissingTable)
    ensures r.Success? ==> forall l :: l in r.value ==> l in tables[ListingsTable]
  {
    match ParseQuery(query)
    case None => Failure(UnexpectedError("Execution failed on sql: syntax error"))
    case Some(cs) =>
      if ListingsTable !in tables then Failure(MissingTable)
      else if |params| != Placeholders(cs) then
        Failure(UnexpectedError("Execution failed on sql: Incorrect number of bindings supplied"))
      else Success(Where(tables[ListingsTable], cs, params))
  }

  lemma LeadingClauseOf(c: Clause, rest: string)
    ensures LeadingClause(ClauseText(c) + rest) == Some(c)
  {
    var s := ClauseText(c) + rest;
    match c
    case PriceBetween =>
    case BedroomsAtLeast =>
      assert s[5] == 'b';
    case BathroomsAtLeast =>
      assert s[5] == 'b' && s[6] == 'a';
    case CityEquals =>
      assert s[5] == 'c';
  }

  /** Parsing the rendered clauses gives back exactly those clauses. */
  lemma {:induction false} ParseRender(cs: seq<Clause>)
    ensures ParseClauses(Render(cs)) == Some(cs)
  {
    if cs != [] {
      var s := Render(cs);
      LeadingClauseOf(cs[0], Render(cs[1..]));
      assert s[|ClauseText(cs[0])|..] == Render(cs[1..]);
      ParseRender(cs[1..]);
      assert [cs[0]] + cs[1..] == cs;
    }
  }

  lemma {:induction false} AllHoldAppend(a: seq<Clause>, b: seq<Clause>, pa: seq<Param>, pb: seq<Param>, l: Listing)
    requires |pa| == Placeholders(a) && |pb| == Placeholders(b)
    ensures |pa + pb| == Placeholders(a + b)
    ensures AllHold(a + b, pa + pb, l) == (AllHold(a, pa, l) && AllHold(b, pb, l))
  {
    PlaceholdersAppend(a, b);
    if a == [] {
      assert a + b == b && pa + pb == pb;
    } else {
      var k := Arity(a[0]);
      assert (a + b)[0] == a[0] && (a + b)[1..] == a[1..] + b;
      assert (pa + pb)[..k] == pa[..k];
      assert (pa + pb)[k..] == pa[k..] + pb;
      AllHoldAppend(a[1..], b, pa[k..], pb, l);
    }
  }

  /* ---------------------------------------------------------------------
     The reference semantics: what the filters mean for one stored row
     --------------------------------------------------------------------- */

  predicate Satisfies(f: Filters, l: Listing) {
    (PriceActive(f) ==> Between(l.price, f.priceRange.value.0, f.priceRange.value.1))
    && (BedroomsActive(f) ==> AtLeast(l.bedrooms, f.bedrooms.value as real))
    && (BathroomsActive(f) ==> AtLeast(l.bathrooms, f.bathrooms.value as real))
    && (CityActive(f) ==> l.city == Str(f.city.value))
  }

  /** The stored rows that satisfy the filters, in table order. */
  function Matching(t: Table, f: Filters): (r: Table)
    ensures |r| <= |t|
    ensures forall l :: l in r <==> l in t && Satisfies(f, l)
    ensures forall l :: multiset(r)[l] == if Satisfies(f, l) then multiset(t)[l] else 0
  {
    if t == [] then []
    else
      assert t == [t[0]] + t[1..];
      (if Satisfies(f, t[0]) then [t[0]] else []) + Matching(t[1..], f)
  }

  /** The built clauses with the built parameters mean exactly the filters. */
  lemma BuiltQueryMeansFilters(f: Filters, l: Listing)
    ensures |BoundParams(f)| == Placeholders(ActiveClauses(f))
    ensures AllHold(ActiveClauses(f), BoundParams(f), l) == Satisfies(f, l)
  {
    var p, b, ba, c := Piece(f, PriceBetween), Piece(f, BedroomsAtLeast), Piece(f, BathroomsAtLeast), Piece(f, CityEquals);
    var pp, pb, pba, pc := PieceArgs(f, PriceBetween), PieceArgs(f, BedroomsAtLeast), PieceArgs(f, BathroomsAtLeast), PieceArgs(f, CityEquals);
    assert AllHold(p, pp, l) == (PriceActive(f) ==> Between(l.price, f.priceRange.value.0, f.priceRange.value.1));
    assert AllHold(b, pb, l) == (BedroomsActive(f) ==> AtLeast(l.bedrooms, f.bedrooms.value as real));
    assert AllHold(ba, pba, l) == (BathroomsActive(f) ==> AtLeast(l.bathrooms, f.bathrooms.value as real));
    assert AllHold(c, pc, l) == (CityActive(f) ==> l.city == Str(f.city.value));
    AllHoldAppend(p, b, pp, pb, l);
    AllHoldAppend(p + b, ba, pp + pb, pba, l);
    AllHoldAppend(p + b + ba, c, pp + pb + pba, pc, l);
  }

  lemma {:induction false} WhereIsMatching(t: Table, f: Filters)
    requires |BoundParams(f)| == Placeholders(ActiveClauses(f))
    ensures Where(t, ActiveClauses(f), BoundParams(f)) == Matching(t, f)
  {
    if t != [] {
      BuiltQueryMeansFilters(f, t[0]);
      WhereIsMatching(t[1..], f);
    }
  }

  /** Running the built query with the built parameters returns exactly the
      stored rows that satisfy the filters, or the missing-table error. */
  lemma ExecuteBuiltQuery(tables: map<string, Table>, f: Filters)
    ensures ListingsTable in tables ==>
      Execute(QueryText(ActiveClauses(f)), BoundParams(f), tables) == Success(Matching(tables[ListingsTable], f))
    ensures ListingsTable !in tables ==>
      Execute(QueryText(ActiveClauses(f)), BoundParams(f), tables) == Failure(MissingTable)
  {
    var cs := ActiveClauses(f);
    var q := QueryText(cs);
    assert q[|SelectAll|..] == Render(cs);
    ParseRender(cs);
    assert ParseQuery(q) == Some(cs);
    BuiltQueryMeansFilters(f, Listing("", Missing, Missing, Missing, Missing, Null, Null));
    if ListingsTable in tables {
      WhereIsMatching(tables[ListingsTable], f);
    }
  }

  /* ---------------------------------------------------------------------
     The rows handed back
     --------------------------------------------------------------------- */

  /** `x if x else ""` on the date column: the 0 that replaced a NULL, and
      the empty string, both come out as the empty string. */
  function BlankDate(r: Row): (b: Row)
    ensures b == r.(dateListed := b.dateListed)
    ensures b.dateListed.Text?
    ensures r.dateListed.Text? ==> b == r
    ensures r.dateListed.ZeroFilled? ==> b.dateListed == Text("")
  {
    if r.dateListed == ZeroFilled then r.(dateListed := Text("")) else r
  }

  /** A row as handed back for a stored row: every column normalised, and
      a NULL or empty date as the empty string, any other date as stored. */
  predicate DeliveredFrom(l: Listing, r: Row) {
    && r == Normalize(l).(dateListed := r.dateListed)
    && (r.dateListed == Text("") <==> l.dateListed == Null || l.dateListed == Str(""))
    && (l.dateListed.Str? ==> r.dateListed == Text(l.dateListed.s))
  }

  /** The description of a handed-back row fits exactly one row: the one
      `BlankDate(Normalize(l))` computes. */
  lemma DeliveredFromIsUnique(l: Listing, r: Row)
    ensures DeliveredFrom(l, r) <==> r == BlankDate(Normalize(l))
  {
  }

  /** The normalised form of the rows read, one for one and in order. */
  function Delivered(t: Table): (rs: seq<Row>)
    ensures |rs| == |t|
    ensures forall i :: 0 <= i < |t| ==> DeliveredFrom(t[i], rs[i])
  {
    seq(|t|, i requires 0 <= i < |t| => BlankDate(Normalize(t[i])))
  }

  /** What `filter_properties` returns: the normalised matching rows, or an
      empty result when opening the store or reading it failed. */
  function ExpectedRows(access: Access, tables: map<string, Table>, f: Filters): (r: seq<Row>)
    ensures access.OpenFailed? || ListingsTable !in tables ==> r == []
    ensures !access.OpenFailed? && ListingsTable in tables ==> |r| <= |tables[ListingsTable]|
  {
    if access.OpenFailed? || ListingsTable !in tables then []
    else Delivered(Matching(tables[ListingsTable], f))
  }

  /** Open the store, build the query, run it, normalise the rows. Never
      raises: a `sqlite3.Error` or any other failure gives an empty result. */
  method FilterProperties(access: Access, tables: map<string, Table>, f: Filters) returns (rows: seq<Row>)
    ensures rows == ExpectedRows(access, tables, f)
  {
    if access.OpenFailed? {
      return [];
    }
    var query, params := BuildQuery(f);
    var read := Execute(query, params, tables);
    ExecuteBuiltQuery(tables, f);
    if read.Failure? {
      return [];
    }
    rows := Delivered(read.value);
  }

  /* ---------------------------------------------------------------------
     Properties of the rows handed back
     --------------------------------------------------------------------- */

  predicate IntegerValued(x: real) {
    x == x.Floor as real
  }

  /** The filters' meaning on a normalised row. */
  predicate RowSatisfies(f: Filters, r: Row) {
    (PriceActive(f) ==> f.priceRange.value.0 <= r.price as real <= f.priceRange.value.1)
    && (BedroomsActive(f) ==> r.bedrooms >= f.bedrooms.value)
    && (BathroomsActive(f) ==> r.bathrooms >= f.bathrooms.value)
    && (CityActive(f) ==> r.city == Text(f.city.value))
  }

  /** Every row handed back satisfies every supplied filter, provided the
      price bounds are whole numbers and no stored count is `Inf` (which
      passes `>=` and is then normalised to 0). */
  lemma ReturnedRowsSatisfyFilters(access: Access, tables: map<string, Table>, f: Filters)
    requires PriceActive(f) ==> IntegerValued(f.priceRange.value.0) && IntegerValued(f.priceRange.value.1)
    requires ListingsTable in tables ==>
      forall l :: l in tables[ListingsTable] ==> !l.bedrooms.PosInf? && !l.bathrooms.PosInf?
    ensures forall r :: r in ExpectedRows(access, tables, f) ==> RowSatisfies(f, r)
  {
    var rows := ExpectedRows(access, tables, f);
    forall r | r in rows
      ensures RowSatisfies(f, r)
    {
      var m := Matching(tables[ListingsTable], f);
      var i :| 0 <= i < |rows| && rows[i] == r;
      var l := m[i];
      assert l in m;
      assert r == BlankDate(Normalize(l));
      if PriceActive(f) {
        var lo, hi := f.priceRange.value.0, f.priceRange.value.1;
        TruncBetween(l.price.value, lo.Floor, hi.Floor);
      }
      if BedroomsActive(f) {
        TruncAtLeast(l.bedrooms.value, f.bedrooms.value);
      }
      if BathroomsActive(f) {
        TruncAtLeast(l.bathrooms.value, f.bathrooms.value);
      }
    }
  }

  /** A stored row whose bedroom count is `Inf` passes `bedrooms >= 3` and
      is handed back with 0 bedrooms. */
  lemma InfiniteCountPassesFilter()
    ensures var l := Listing("p1", Finite(200000.0), PosInf, Finite(2.0), Finite(1000.0), Str("Miami"), Str("2020-01-01"));
            var f := Filters(None, Some(3), None, None);
            ExpectedRows(SuppliedConnection, map[ListingsTable := [l]], f) == [Normalize(l)]
            && Normalize(l).bedrooms == 0 && !RowSatisfies(f, Normalize(l))
  {
    var l := Listing("p1", Finite(200000.0), PosInf, Finite(2.0), Finite(1000.0), Str("Miami"), Str("2020-01-01"));
    var f := Filters(None, Some(3), None, None);
    assert Matching([l], f) == [l];
  }

  /** Every returned row comes from a stored row (an empty store gives an
      empty result), and every matching stored row is returned. */
  lemma ReturnedRowsAreStoredRows(access: Access, tables: map<string, Table>, f: Filters)
    requires !access.OpenFailed? && ListingsTable in tables
    ensures forall r :: r in ExpectedRows(access, tables, f) ==>
      exists l :: l in tables[ListingsTable] && Satisfies(f, l) && DeliveredFrom(l, r)
    ensures forall l :: l in tables[ListingsTable] && Satisfies(f, l) ==>
      BlankDate(Normalize(l)) in ExpectedRows(access, tables, f)
    ensures tables[ListingsTable] == [] ==> ExpectedRows(access, tables, f) == []
  {
    var m := Matching(tables[ListingsTable], f);
    var rows := ExpectedRows(access, tables, f);
    forall r | r in rows
      ensures exists l :: l in tables[ListingsTable] && Satisfies(f, l) && DeliveredFrom(l, r)
    {
      var i :| 0 <= i < |rows| && rows[i] == r;
      assert m[i] in m;
    }
    forall l | l in tables[ListingsTable] && Satisfies(f, l)
      ensures BlankDate(Normalize(l)) in rows
    {
      var i :| 0 <= i < |m| && m[i] == l;
      assert rows[i] == BlankDate(Normalize(l));
    }
  }

  lemma {:induction false} MatchingNoFilters(t: Table)
    ensures Matching(t, NoFilters) == t
  {
    if t != [] {
      MatchingNoFilters(t[1..]);
      assert [t[0]] + t[1..] == t;
    }
  }

  /** With no filters every stored row is returned, normalised, in order. */
  lemma NoFiltersReturnsEveryRow(access: Access, tables: map<string, Table>)
    requires !access.OpenFailed? && ListingsTable in tables
    ensures ExpectedRows(access, tables, NoFilters) == Delivered(tables[ListingsTable])
  {
    MatchingNoFilters(tables[ListingsTable]);
  }

  lemma {:induction false} InvertedRangeMatchesNothing(t: Table, f: Filters)
    requires PriceActive(f) && f.priceRange.value.0 > f.priceRange.value.1
    ensures Matching(t, f) == []
  {
    if t != [] {
      InvertedRangeMatchesNothing(t[1..], f);
    }
  }

  /** A price range whose minimum exceeds its maximum is not rejected: it
      returns no rows. */
  lemma InvertedRangeReturnsNothing(access: Access, tables: map<string, Table>, f: Filters)
    requires PriceActive(f) && f.priceRange.value.0 > f.priceRange.value.1
    ensures ExpectedRows(access, tables, f) == []
  {
    if ListingsTable in tables {
      InvertedRangeMatchesNothing(tables[ListingsTable], f);
    }
  }

  /** The date column handed back is always text: NULL and empty dates are "". */
  lemma DatesAreAlwaysText(access: Access, tables: map<string, Table>, f: Filters)
    ensures forall r :: r in ExpectedRows(access, tables, f) ==> r.dateListed.Text?
  {
  }
}
