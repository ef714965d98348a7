/** Vocabulary shared by the store, the crawler and the run loop. */
module Common {

  /** The four attribute families a game is classified by. The source keeps
      four near-identical code paths, one per family; here they are one. */
  datatype Kind = Genre | Tag | Developer | Publisher

  datatype Option<T> = None | Some(value: T)

  /** The set of the elements of a list, Python's `set(xs)`. */
  function Elems<T>(xs: seq<T>): set<T>
  {
    set x | x in xs
  }

  /** A non-empty set of integers has an element, for a `:|` to pick. */
  lemma Inhabited(s: set<int>)
    requires s != {}
    ensures exists x :: x in s
  {
    if forall x :: x !in s {
      assert false;
    }
  }

  predicate Distinct<T(==)>(xs: seq<T>)
  {
    forall i, j :: 0 <= i < j < |xs| ==> xs[i] != xs[j]
  }

  /** One value per kind: the source's dictionaries keyed by 'genres',
      'tags', 'developers' and 'publishers'. */
  datatype PerKind<T> = PerKind(genres: T, tags: T, developers: T, publishers: T)
  {
    function Get(k: Kind): T
    {
      match k
      case Genre => genres
      case Tag => tags
      case Developer => developers
      case Publisher => publishers
    }

    /** Replace the entry of one kind, keeping the other three. */
    function Set(k: Kind, v: T): (r: PerKind<T>)
      ensures r.Get(k) == v
      ensures forall j: Kind :: j != k ==> r.Get(j) == Get(j)
    {
      match k
      case Genre => this.(genres := v)
      case Tag => this.(tags := v)
      case Developer => this.(developers := v)
      case Publisher => this.(publishers := v)
    }
  }

  lemma AppendAssoc<T>(a: seq<T>, b: seq<T>, c: seq<T>)
    ensures (a + b) + c == a + (b + c)
  {
  }

  /** A list of a set's elements, each once, in an order the model leaves
      open (Python's iteration order over a set or result rows). */
  method ListOf(s: set<int>) returns (xs: seq<int>)
    ensures Elems(xs) == s && Distinct(xs)
  {
    xs := [];
    var rest := s;
    while rest != {}
      invariant rest <= s
      invariant Elems(xs) == s - rest
      invariant Distinct(xs)
      decreases |rest|
    {
      Inhabited(rest);
      var x :| x in rest;
      assert x !in Elems(xs);
      assert Elems(xs + [x]) == Elems(xs) + {x};
      xs := xs + [x];
      rest := rest - {x};
    }
  }
}
