/**
 * The catalog's records (genres, countries, directors, movies and the
 * loanable copies of movies), the values derived from them, the uniqueness
 * constraints the tables keep, and each table's default ordering.
 */
module Models {

  import opened Common
  import opened Ordering

  type GenreId = nat
  type CountryId = nat
  type DirectorId = nat
  type MovieId = nat
  type UserId = nat

  /** The text form of a copy's UUID primary key. */
  type InstanceId = string

  datatype Genre = Genre(id: GenreId, name: string)

  datatype Country = Country(id: CountryId, name: string)

  datatype Director = Director(
    id: DirectorId,
    firstName: string,
    lastName: string,
    dateOfBirth: Option<Date>,
    dateOfDeath: Option<Date>)

  /** A movie; `genres` lists the associated genres in association order. */
  datatype Movie = Movie(
    id: MovieId,
    title: string,
    director: Option<DirectorId>,
    summary: string,
    isbn: string,
    genres: seq<Genre>,
    country: Option<CountryId>)

  /** The four choices of a copy's `status` field. */
  datatype LoanStatus = Maintenance | OnLoan | Available | Reserved {

    /** The one-letter code stored in the database. */
    function Code(): (c: char)
      ensures c in "doar"
    {
      match this
      case Maintenance => 'd'
      case OnLoan => 'o'
      case Available => 'a'
      case Reserved => 'r'
    }

    /** The human-readable name of the choice. */
    function Label(): (l: string)
      ensures l in ["Maintenance", "On loan", "Available", "Reserved"]
    {
      match this
      case Maintenance => "Maintenance"
      case OnLoan => "On loan"
      case Available => "Available"
      case Reserved => "Reserved"
    }
  }

  /** The status a new copy gets when none is given. */
  const DefaultStatus: LoanStatus := Maintenance

  /** Reads a stored status code; only the four choice codes are statuses. */
  function StatusFromCode(c: char): (r: Option<LoanStatus>)
    ensures r.Some? <==> c in "doar"
    ensures r.Some? ==> r.value.Code() == c
  {
    match c
    case 'd' => Some(Maintenance)
    case 'o' => Some(OnLoan)
    case 'a' => Some(Available)
    case 'r' => Some(Reserved)
    case _ => None
  }

  /** Every status survives being stored as its code and read back; no two statuses share a code or a label. */
  lemma StatusCodeRoundTrip(s: LoanStatus)
    ensures StatusFromCode(s.Code()) == Some(s)
    ensures forall t: LoanStatus :: t.Code() == s.Code() ==> t == s
    ensures forall t: LoanStatus :: t.Label() == s.Label() ==> t == s
  {
  }

  /** A specific loanable copy of a movie. */
  datatype MovieInstance = MovieInstance(
    id: InstanceId,
    movie: Option<MovieId>,
    imprint: string,
    dueBack: Option<Date>,
    borrower: Option<UserId>,
    status: LoanStatus)

  /** A copy created without a status is in maintenance, stored as 'd'. */
  function NewInstance(id: InstanceId, movie: Option<MovieId>, imprint: string,
                       dueBack: Option<Date>, borrower: Option<UserId>): (r: MovieInstance)
    ensures r.status == DefaultStatus && r.status.Code() == 'd'
    ensures r.id == id && r.movie == movie && r.imprint == imprint
    ensures r.dueBack == dueBack && r.borrower == borrower
  {
    MovieInstance(id, movie, imprint, dueBack, borrower, DefaultStatus)
  }

  /** A copy is overdue when it has a due date and today is past it; its status plays no part. */
  function IsOverdue(inst: MovieInstance, today: Date): (r: bool)
    ensures r <==> inst.dueBack.Some? && inst.dueBack.value < today
    ensures inst.dueBack.None? ==> !r
  {
    match inst.dueBack
    case None => false
    case Some(due) => today > due
  }

  /** Changing only the status of a copy never changes whether it is overdue. */
  lemma OverdueIgnoresStatus(inst: MovieInstance, status: LoanStatus, today: Date)
    ensures IsOverdue(inst.(status := status), today) == IsOverdue(inst, today)
  {
  }

  // ---------------------------------------------------------------------
  // Text joined with ", " and split back apart

  /** `parts` joined with ", " between each neighbouring pair. */
  function Join(parts: seq<string>): (s: string)
    ensures s == "" <==> parts == [] || parts == [""]
    ensures |parts| > 0 ==> |parts[0]| <= |s| && s[..|parts[0]|] == parts[0]
    decreases |parts|
  {
    if |parts| == 0 then ""
    else if |parts| == 1 then parts[0]
    else parts[0] + ", " + Join(parts[1..])
  }

  /** The position of the first `c` in `s`, or `|s|` when there is none. */
  function IndexOf(s: string, c: char): (i: nat)
    ensures i <= |s|
    ensures i < |s| <==> c in s
    ensures i < |s| ==> s[i] == c
    ensures c !in s[..i]
    decreases |s|
  {
    if s == [] then 0
    else if s[0] == c then 0
    else
      assert s == [s[0]] + s[1..];
      1 + IndexOf(s[1..], c)
  }

  /**
   * The inverse of `Join` on comma-free parts: cuts `s` at every comma and
   * drops the one character (the space of ", ") that follows each comma.
   */
  function Unjoin(s: string): (parts: seq<string>)
    ensures |parts| >= 1
    decreases |s|
  {
    var i := IndexOf(s, ',');
    if i == |s| then [s]
    else [s[..i]] + Unjoin(s[if i + 2 <= |s| then i + 2 else |s|..])
  }

  /** No part contains a comma, so the separators are the only commas in the joined text. */
  predicate CommaFree(parts: seq<string>)
  {
    forall k :: 0 <= k < |parts| ==> ',' !in parts[k]
  }

  /** Searching past a comma-free prefix: the position found is shifted by the prefix. */
  lemma {:induction false} IndexOfAfter(a: string, b: string, c: char)
    requires c !in a
    ensures IndexOf(a + b, c) == |a| + IndexOf(b, c)
    decreases |a|
  {
    if a != [] {
      assert (a + b)[1..] == a[1..] + b;
      IndexOfAfter(a[1..], b, c);
    } else {
      assert a + b == b;
    }
  }

  /** Unjoining text that starts with a comma-free part and ", " cuts off that part. */
  lemma UnjoinCons(a: string, rest: string)
    requires ',' !in a
    ensures Unjoin(a + ", " + rest) == [a] + Unjoin(rest)
  {
    var s := a + (", " + rest);
    assert a + ", " + rest == s;
    IndexOfAfter(a, ", " + rest, ',');
    assert IndexOf(", " + rest, ',') == 0;
    assert s[..|a|] == a;
    assert s[|a| + 2..] == rest;
  }

  /** Unjoining undoes joining, for a non-empty list of comma-free parts. */
  lemma {:induction false} UnjoinJoin(parts: seq<string>)
    requires |parts| >= 1 && CommaFree(parts)
    ensures Unjoin(Join(parts)) == parts
    decreases |parts|
  {
    if |parts| == 1 {
      assert ',' !in parts[0];
      assert IndexOf(parts[0], ',') == |parts[0]|;
    } else {
      assert ',' !in parts[0];
      UnjoinCons(parts[0], Join(parts[1..]));
      UnjoinJoin(parts[1..]);
      assert parts == [parts[0]] + parts[1..];
    }
  }

  /** Two parts joined. */
  lemma JoinTwo(parts: seq<string>)
    requires |parts| == 2
    ensures Join(parts) == parts[0] + ", " + parts[1]
  {
    assert Join(parts[1..]) == parts[1];
  }

  /** Three parts joined. */
  lemma JoinThree(parts: seq<string>)
    requires |parts| == 3
    ensures Join(parts) == parts[0] + ", " + parts[1] + ", " + parts[2]
  {
    JoinTwo(parts[1..]);
  }

  // ---------------------------------------------------------------------
  // Derived display values

  /** How many genres the genre column shows. */
  const GenreDisplayLimit: nat := 3

  function GenreNames(genres: seq<Genre>): (names: seq<string>)
    ensures |names| == |genres|
    ensures forall k :: 0 <= k < |genres| ==> names[k] == genres[k].name
  {
    seq(|genres|, k requires 0 <= k < |genres| => genres[k].name)
  }

  /**
   * The names of the movie's first three genres, in association order,
   * separated by ", "; with comma-free names the shown names can be read back.
   */
  function DisplayGenre(m: Movie): (s: string)
    ensures |m.genres| == 0 ==> s == ""
    ensures |m.genres| == 1 ==> s == m.genres[0].name
    ensures |m.genres| == 2 ==> s == m.genres[0].name + ", " + m.genres[1].name
    ensures |m.genres| >= 3 ==>
      s == m.genres[0].name + ", " + m.genres[1].name + ", " + m.genres[2].name
    ensures |m.genres| > 0 && CommaFree(GenreNames(m.genres)) ==>
      var shown := if |m.genres| < GenreDisplayLimit then |m.genres| else GenreDisplayLimit;
      Unjoin(s) == GenreNames(m.genres[..shown]) && |Unjoin(s)| <= GenreDisplayLimit
  {
    var shown := if |m.genres| < GenreDisplayLimit then |m.genres| else GenreDisplayLimit;
    var names := GenreNames(m.genres[..shown]);
    assert |names| == 2 ==> Join(names) == names[0] + ", " + names[1] by {
      if |names| == 2 { JoinTwo(names); }
    }
    assert |names| == 3 ==> Join(names) == names[0] + ", " + names[1] + ", " + names[2] by {
      if |names| == 3 { JoinThree(names); }
    }
    assert |m.genres| > 0 && CommaFree(GenreNames(m.genres)) ==> Unjoin(Join(names)) == names by {
      if |m.genres| > 0 && CommaFree(GenreNames(m.genres)) {
        forall k | 0 <= k < |names| ensures ',' !in names[k] {
          assert names[k] == GenreNames(m.genres)[k];
        }
        UnjoinJoin(names);
      }
    }
    Join(names)
  }

  /** A director shown as "last, first"; comma-free names can be read back. */
  function DirectorStr(d: Director): (s: string)
    ensures s == Join([d.lastName, d.firstName])
    ensures ',' !in d.lastName && ',' !in d.firstName ==> Unjoin(s) == [d.lastName, d.firstName]
    ensures |s| == |d.lastName| + 2 + |d.firstName|
  {
    var parts := [d.lastName, d.firstName];
    assert parts[1..] == [d.firstName];
    assert ',' !in d.lastName && ',' !in d.firstName ==> Unjoin(Join(parts)) == parts by {
      if ',' !in d.lastName && ',' !in d.firstName {
        UnjoinJoin(parts);
      }
    }
    d.lastName + ", " + d.firstName
  }

  /** The movie with the given id, the first one if several share it. */
  function FindMovie(movies: seq<Movie>, id: MovieId): (r: Option<Movie>)
    ensures r.Some? ==> r.value in movies && r.value.id == id
    ensures r.None? ==> forall m :: m in movies ==> m.id != id
    decreases |movies|
  {
    if movies == [] then None
    else if movies[0].id == id then Some(movies[0])
    else
      assert movies == [movies[0]] + movies[1..];
      FindMovie(movies[1..], id)
  }

  /**
   * A copy shown as "<id> (<title>)"; there is no text when the copy has no
   * movie, since the title of a missing movie cannot be read.
   */
  function InstanceStr(inst: MovieInstance, movies: seq<Movie>): (r: Option<string>)
    ensures r.Some? <==> inst.movie.Some? && exists m :: m in movies && m.id == inst.movie.value
    ensures r.Some? ==> exists m :: m in movies && m.id == inst.movie.value &&
                                  r.value == inst.id + " (" + m.title + ")"
  {
    match inst.movie
    case None => None
    case Some(id) =>
      match FindMovie(movies, id)
      case None => None
      case Some(m) => Some(inst.id + " (" + m.title + ")")
  }

  // ---------------------------------------------------------------------
  // Table constraints

  /** No two movies share an ISBN. */
  ghost predicate UniqueIsbn(movies: seq<Movie>)
  {
    forall i, j :: 0 <= i < j < |movies| ==> movies[i].isbn != movies[j].isbn
  }

  /** No two movies share a primary key. */
  ghost predicate UniqueMovieIds(movies: seq<Movie>)
  {
    forall i, j :: 0 <= i < j < |movies| ==> movies[i].id != movies[j].id
  }

  /** No two copies share a primary key. */
  ghost predicate UniqueInstanceIds(rows: seq<MovieInstance>)
  {
    forall i, j :: 0 <= i < j < |rows| ==> rows[i].id != rows[j].id
  }

  /** A user borrows at most one copy: no two copies share a set borrower. */
  ghost predicate UniqueBorrowers(rows: seq<MovieInstance>)
  {
    forall i, j :: 0 <= i < j < |rows| && rows[i].borrower.Some? ==> rows[i].borrower != rows[j].borrower
  }

  /** Every movie a copy refers to exists: a referenced movie cannot be deleted. */
  ghost predicate MovieRefsResolve(movies: seq<Movie>, rows: seq<MovieInstance>)
  {
    forall k :: 0 <= k < |rows| && rows[k].movie.Some? ==>
      exists m :: m in movies && m.id == rows[k].movie.value
  }

  /** Under the reference constraint, every copy that has a movie can be shown. */
  lemma InstanceStrDefined(movies: seq<Movie>, rows: seq<MovieInstance>, k: nat)
    requires MovieRefsResolve(movies, rows)
    requires k < |rows| && rows[k].movie.Some?
    ensures InstanceStr(rows[k], movies).Some?
  {
  }

  /** The director and the country a movie names, if any, are stored. */
  predicate MovieFksOk(directors: seq<Director>, countries: seq<Country>, m: Movie)
  {
    && (m.director.Some? ==> exists d :: d in directors && d.id == m.director.value)
    && (m.country.Some? ==> exists c :: c in countries && c.id == m.country.value)
  }

  /** Every movie's director and country references resolve. */
  ghost predicate MovieFksResolve(directors: seq<Director>, countries: seq<Country>, movies: seq<Movie>)
  {
    forall k :: 0 <= k < |movies| ==> MovieFksOk(directors, countries, movies[k])
  }

  /** The movie a copy names, if any, is stored. */
  predicate InstanceFkOk(movies: seq<Movie>, inst: MovieInstance)
  {
    inst.movie.Some? ==> exists m :: m in movies && m.id == inst.movie.value
  }

  /** Why the database refuses a write. */
  datatype ConstraintError = DuplicateKey | DuplicateIsbn | DuplicateBorrower | MissingReference

  /** A table after a write, or the constraint the write broke. */
  datatype Saved<T> = Saved(table: seq<T>) | Violation(error: ConstraintError)

  /**
   * Inserts a movie. A repeated primary key is reported first, then a
   * repeated ISBN, then a director or country that is not stored (foreign
   * keys are checked last, at commit); a refusal writes nothing.
   */
  function AddMovie(movies: seq<Movie>, directors: seq<Director>, countries: seq<Country>, m: Movie): (r: Saved<Movie>)
    ensures r == Violation(DuplicateKey) <==> exists k :: 0 <= k < |movies| && movies[k].id == m.id
    ensures r == Violation(DuplicateIsbn) <==>
      (forall k :: 0 <= k < |movies| ==> movies[k].id != m.id) &&
      (exists k :: 0 <= k < |movies| && movies[k].isbn == m.isbn)
    ensures r == Violation(MissingReference) <==>
      (forall k :: 0 <= k < |movies| ==> movies[k].id != m.id && movies[k].isbn != m.isbn) &&
      !MovieFksOk(directors, countries, m)
    ensures r.Saved? <==>
      (forall k :: 0 <= k < |movies| ==> movies[k].id != m.id && movies[k].isbn != m.isbn) &&
      MovieFksOk(directors, countries, m)
    ensures r.Saved? ==> r.table == movies + [m]
    ensures r.Saved? && UniqueIsbn(movies) ==> UniqueIsbn(r.table)
    ensures r.Saved? && UniqueMovieIds(movies) ==> UniqueMovieIds(r.table)
    ensures r.Saved? && MovieFksResolve(directors, countries, movies) ==> MovieFksResolve(directors, countries, r.table)
  {
    if exists k :: 0 <= k < |movies| && movies[k].id == m.id then Violation(DuplicateKey)
    else if exists k :: 0 <= k < |movies| && movies[k].isbn == m.isbn then Violation(DuplicateIsbn)
    else if !MovieFksOk(directors, countries, m) then Violation(MissingReference)
    else Saved(movies + [m])
  }

  /**
   * Inserts a copy. A repeated primary key is reported first, then a
   * borrower who already borrows a copy, then a movie that is not stored
   * (foreign keys are checked last, at commit); a refusal writes nothing.
   */
  function AddInstance(movies: seq<Movie>, rows: seq<MovieInstance>, inst: MovieInstance): (r: Saved<MovieInstance>)
    ensures r == Violation(DuplicateKey) <==> exists k :: 0 <= k < |rows| && rows[k].id == inst.id
    ensures r == Violation(DuplicateBorrower) <==>
      (forall k :: 0 <= k < |rows| ==> rows[k].id != inst.id) &&
      inst.borrower.Some? && (exists k :: 0 <= k < |rows| && rows[k].borrower == inst.borrower)
    ensures r == Violation(MissingReference) <==>
      (forall k :: 0 <= k < |rows| ==>
        rows[k].id != inst.id && (inst.borrower.Some? ==> rows[k].borrower != inst.borrower)) &&
      !InstanceFkOk(movies, inst)
    ensures r.Saved? <==>
      (forall k :: 0 <= k < |rows| ==>
        rows[k].id != inst.id && (inst.borrower.Some? ==> rows[k].borrower != inst.borrower)) &&
      InstanceFkOk(movies, inst)
    ensures r.Saved? ==> r.table == rows + [inst]
    ensures r.Saved? && UniqueInstanceIds(rows) ==> UniqueInstanceIds(r.table)
    ensures r.Saved? && UniqueBorrowers(rows) ==> UniqueBorrowers(r.table)
    ensures r.Saved? && MovieRefsResolve(movies, rows) ==> MovieRefsResolve(movies, r.table)
  {
    if exists k :: 0 <= k < |rows| && rows[k].id == inst.id then Violation(DuplicateKey)
    else if inst.borrower.Some? && exists k :: 0 <= k < |rows| && rows[k].borrower == inst.borrower then
      Violation(DuplicateBorrower)
    else if !InstanceFkOk(movies, inst) then Violation(MissingReference)
    else Saved(rows + [inst])
  }

  // ---------------------------------------------------------------------
  // Default orderings (text by character code; a missing value sorts first)

  /** Due dates in ascending order, the copies without one first. */
  predicate DueBackLe(a: Option<Date>, b: Option<Date>)
  {
    match (a, b)
    case (None, _) => true
    case (Some(_), None) => false
    case (Some(x), Some(y)) => x <= y
  }

  /** Copies are ordered by due date. */
  predicate InstanceLe(a: MovieInstance, b: MovieInstance)
  {
    DueBackLe(a.dueBack, b.dueBack)
  }

  lemma InstanceOrderTotalPreorder()
    ensures TotalPreorder(InstanceLe)
  {
  }

  /** Directors are ordered by last name, then first name. */
  predicate DirectorLe(a: Director, b: Director)
  {
    if a.lastName != b.lastName then StrLe(a.lastName, b.lastName)
    else StrLe(a.firstName, b.firstName)
  }

  /** A pair order "first key, then second key" built from StrLe is transitive. */
  lemma NameThenLeTransitive(a1: string, a2: string, b1: string, b2: string, c1: string, c2: string)
    requires if a1 != b1 then StrLe(a1, b1) else StrLe(a2, b2)
    requires if b1 != c1 then StrLe(b1, c1) else StrLe(b2, c2)
    ensures if a1 != c1 then StrLe(a1, c1) else StrLe(a2, c2)
  {
    if a1 != b1 && b1 != c1 {
      StrLeTransitive(a1, b1, c1);
      if a1 == c1 {
        StrLeAntisymmetric(a1, b1);
      }
    } else if a1 == b1 && b1 == c1 {
      StrLeTransitive(a2, b2, c2);
    }
  }

  lemma DirectorOrderTotalPreorder()
    ensures TotalPreorder(DirectorLe)
  {
    forall a: Director ensures DirectorLe(a, a) {
      StrLeReflexive(a.firstName);
    }
    forall a: Director, b: Director ensures DirectorLe(a, b) || DirectorLe(b, a) {
      StrLeTotal(a.lastName, b.lastName);
      StrLeTotal(a.firstName, b.firstName);
    }
    forall a: Director, b: Director, c: Director | DirectorLe(a, b) && DirectorLe(b, c)
      ensures DirectorLe(a, c)
    {
      NameThenLeTransitive(a.lastName, a.firstName, b.lastName, b.firstName, c.lastName, c.firstName);
    }
  }

  /** The director with the given id, the first one if several share it. */
  function FindDirector(directors: seq<Director>, id: DirectorId): (r: Option<Director>)
    ensures r.Some? ==> r.value in directors && r.value.id == id
    ensures r.None? ==> forall d :: d in directors ==> d.id != id
    decreases |directors|
  {
    if directors == [] then None
    else if directors[0].id == id then Some(directors[0])
    else
      assert directors == [directors[0]] + directors[1..];
      FindDirector(directors[1..], id)
  }

  /** The director record a movie's director reference leads to, if any. */
  function DirectorOf(directors: seq<Director>, m: Movie): Option<Director>
  {
    match m.director
    case None => None
    case Some(id) => FindDirector(directors, id)
  }

  /** Director references ordered by the director's own ordering, no director first. */
  predicate DirectorRefLe(a: Option<Director>, b: Option<Director>)
  {
    match (a, b)
    case (None, _) => true
    case (Some(_), None) => false
    case (Some(x), Some(y)) => DirectorLe(x, y)
  }

  /** Movies are ordered by title, then by director (which orders by last and first name). */
  predicate MovieLe(directors: seq<Director>, a: Movie, b: Movie)
  {
    if a.title != b.title then StrLe(a.title, b.title)
    else DirectorRefLe(DirectorOf(directors, a), DirectorOf(directors, b))
  }

  function MovieOrder(directors: seq<Director>): (Movie, Movie) -> bool
  {
    (a: Movie, b: Movie) => MovieLe(directors, a, b)
  }

  lemma MovieOrderTotalPreorder(directors: seq<Director>)
    ensures TotalPreorder(MovieOrder(directors))
  {
    var le := MovieOrder(directors);
    DirectorOrderTotalPreorder();
    forall a: Movie ensures le(a, a) {
      assert le(a, a) == MovieLe(directors, a, a);
    }
    forall a: Movie, b: Movie ensures le(a, b) || le(b, a) {
      assert le(a, b) == MovieLe(directors, a, b) && le(b, a) == MovieLe(directors, b, a);
      StrLeTotal(a.title, b.title);
    }
    forall a: Movie, b: Movie, c: Movie | le(a, b) && le(b, c) ensures le(a, c) {
      assert le(a, b) == MovieLe(directors, a, b) && le(b, c) == MovieLe(directors, b, c);
      assert le(a, c) == MovieLe(directors, a, c);
      if a.title != b.title && b.title != c.title {
        StrLeTransitive(a.title, b.title, c.title);
        if a.title == c.title {
          StrLeAntisymmetric(a.title, b.title);
        }
      }
    }
  }

  /** The movie table in its default order. */
  function OrderedMovies(movies: seq<Movie>, directors: seq<Director>): (r: seq<Movie>)
    ensures multiset(r) == multiset(movies)
    ensures Sorted(r, MovieOrder(directors))
  {
    MovieOrderTotalPreorder(directors);
    SortBy(movies, MovieOrder(directors))
  }

  /** The director table in its default order. */
  function OrderedDirectors(directors: seq<Director>): (r: seq<Director>)
    ensures multiset(r) == multiset(directors)
    ensures Sorted(r, DirectorLe)
  {
    DirectorOrderTotalPreorder();
    SortBy(directors, DirectorLe)
  }
}
