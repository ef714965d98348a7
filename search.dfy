/** The filter and parameter lists search_games builds before it runs its
    query: one condition per criterion supplied, in a fixed order, each with
    exactly one bound parameter. */
module Search {
  import opened Common

  /** The criteria of search_games; `None` is Python's default `None`. */
  datatype Criteria = Criteria(
    query: Option<string>,
    minPrice: Option<int>,
    maxPrice: Option<int>,
    minYear: Option<int>,
    maxYear: Option<int>,
    score: Option<int>,
    genres: Option<seq<string>>,
    tags: Option<seq<string>>,
    developers: Option<seq<string>>,
    publishers: Option<seq<string>>)

  /** The conditions, listed in the order the source tests them. */
  datatype Filter =
    | TitleLike | MinPrice | MaxPrice | MinYear | MaxYear | MinScore
    | InGenres | InTags | InDevelopers | InPublishers

  /** A bound parameter of the query. */
  datatype Param = Text(text: string) | Number(n: int) | Names(names: seq<string>)

  function Rank(f: Filter): nat
  {
    match f
    case TitleLike => 0
    case MinPrice => 1
    case MaxPrice => 2
    case MinYear => 3
    case MaxYear => 4
    case MinScore => 5
    case InGenres => 6
    case InTags => 7
    case InDevelopers => 8
    case InPublishers => 9
  }

  /** Python truthiness of an optional text or list: present and non-empty. */
  predicate TextGiven(s: Option<string>)
  {
    s.Some? && s.value != []
  }

  predicate NamesGiven(s: Option<seq<string>>)
  {
    s.Some? && s.value != []
  }

  /** Whether the criteria ask for a condition. Numbers are compared with
      None, so 0 counts; the text and the lists by truthiness. */
  predicate Supplied(c: Criteria, f: Filter)
  {
    match f
    case TitleLike => TextGiven(c.query)
    case MinPrice => c.minPrice.Some?
    case MaxPrice => c.maxPrice.Some?
    case MinYear => c.minYear.Some?
    case MaxYear => c.maxYear.Some?
    case MinScore => c.score.Some?
    case InGenres => NamesGiven(c.genres)
    case InTags => NamesGiven(c.tags)
    case InDevelopers => NamesGiven(c.developers)
    case InPublishers => NamesGiven(c.publishers)
  }

  /** The parameter bound to a supplied condition; the title is matched as a
      substring by wrapping it in `%`. */
  function ParamOf(c: Criteria, f: Filter): Param
    requires Supplied(c, f)
  {
    match f
    case TitleLike => Text("%" + c.query.value + "%")
    case MinPrice => Number(c.minPrice.value)
    case MaxPrice => Number(c.maxPrice.value)
    case MinYear => Number(c.minYear.value)
    case MaxYear => Number(c.maxYear.value)
    case MinScore => Number(c.score.value)
    case InGenres => Names(c.genres.value)
    case InTags => Names(c.tags.value)
    case InDevelopers => Names(c.developers.value)
    case InPublishers => Names(c.publishers.value)
  }

  /** The lists built so far cover exactly the supplied conditions of rank
      below `upTo`, in rank order, each with its parameter. */
  predicate BuiltUpTo(c: Criteria, filters: seq<Filter>, params: seq<Param>, upTo: nat)
  {
    |filters| == |params|
    && (forall f: Filter :: f in filters <==> Supplied(c, f) && Rank(f) < upTo)
    && (forall i, j :: 0 <= i < j < |filters| ==> Rank(filters[i]) < Rank(filters[j]))
    && (forall i :: 0 <= i < |filters| ==> Supplied(c, filters[i]) && params[i] == ParamOf(c, filters[i]))
  }

  lemma {:induction false} BuildStep(c: Criteria, filters: seq<Filter>, params: seq<Param>, f: Filter)
    requires BuiltUpTo(c, filters, params, Rank(f))
    ensures Supplied(c, f) ==> BuiltUpTo(c, filters + [f], params + [ParamOf(c, f)], Rank(f) + 1)
    ensures !Supplied(c, f) ==> BuiltUpTo(c, filters, params, Rank(f) + 1)
  {
    forall g: Filter
      ensures g in filters ==> Rank(g) < Rank(f)
      ensures Rank(g) == Rank(f) ==> g == f
    {
    }
  }

  /** Appends a condition and its parameter when the criteria supply it. */
  method AddIfSupplied(c: Criteria, filters: seq<Filter>, params: seq<Param>, f: Filter)
    returns (filters': seq<Filter>, params': seq<Param>)
    requires BuiltUpTo(c, filters, params, Rank(f))
    ensures BuiltUpTo(c, filters', params', Rank(f) + 1)
  {
    BuildStep(c, filters, params, f);
    if Supplied(c, f) {
      filters', params' := filters + [f], params + [ParamOf(c, f)];
    } else {
      filters', params' := filters, params;
    }
  }

  /** The text and numeric criteria: title, price bounds, year bounds and
      score. */
  method AddScalarFilters(c: Criteria) returns (filters: seq<Filter>, params: seq<Param>)
    ensures BuiltUpTo(c, filters, params, Rank(InGenres))
  {
    filters, params := [], [];
    filters, params := AddIfSupplied(c, filters, params, TitleLike);
    filters, params := AddIfSupplied(c, filters, params, MinPrice);
    filters, params := AddIfSupplied(c, filters, params, MaxPrice);
    filters, params := AddIfSupplied(c, filters, params, MinYear);
    filters, params := AddIfSupplied(c, filters, params, MaxYear);
    filters, params := AddIfSupplied(c, filters, params, MinScore);
  }

  /** The four name-list criteria. */
  method AddListFilters(c: Criteria, filters0: seq<Filter>, params0: seq<Param>) returns (filters: seq<Filter>, params: seq<Param>)
    requires BuiltUpTo(c, filters0, params0, Rank(InGenres))
    ensures BuiltUpTo(c, filters, params, Rank(InPublishers) + 1)
  {
    filters, params := AddIfSupplied(c, filters0, params0, InGenres);
    filters, params := AddIfSupplied(c, filters, params, InTags);
    filters, params := AddIfSupplied(c, filters, params, InDevelopers);
    filters, params := AddIfSupplied(c, filters, params, InPublishers);
  }

  /** search_games' filter construction: one condition and one parameter per
      supplied criterion, nothing else, in the fixed order. */
  method BuildFilters(c: Criteria) returns (filters: seq<Filter>, params: seq<Param>)
    ensures |filters| == |params|
    ensures forall f: Filter :: f in filters <==> Supplied(c, f)
    ensures forall i, j :: 0 <= i < j < |filters| ==> Rank(filters[i]) < Rank(filters[j])
    ensures forall i :: 0 <= i < |filters| ==> params[i] == ParamOf(c, filters[i])
  {
    filters, params := AddScalarFilters(c);
    filters, params := AddListFilters(c, filters, params);
    assert forall f: Filter :: Rank(f) < 10;
  }

  /** Joins conditions with " AND ". */
  function JoinAnd(conds: seq<string>): string
    requires |conds| >= 1
    decreases |conds|
  {
    if |conds| == 1 then conds[0] else conds[0] + " AND " + JoinAnd(conds[1..])
  }

  /** The WHERE clause: empty exactly when no condition was added. */
  function WhereClause(conds: seq<string>): (w: string)
    ensures w == [] <==> conds == []
    ensures conds != [] ==> |w| >= 6 && w[..6] == "WHERE "
  {
    if conds == [] then [] else "WHERE " + JoinAnd(conds)
  }
}
