/**
 * What the catalog's views compute: the home page's counts and visit
 * counter, the two loan listings, and the renewal of a copy's due date.
 */
module Views {

  import opened Common
  import opened Ordering
  import opened Models
  import opened Forms

  // ---------------------------------------------------------------------
  // Home page

  function Statuses(rows: seq<MovieInstance>): (ss: seq<LoanStatus>)
    ensures |ss| == |rows|
    ensures forall k :: 0 <= k < |rows| ==> ss[k] == rows[k].status
  {
    seq(|rows|, k requires 0 <= k < |rows| => rows[k].status)
  }

  /** The number of copies in the given status. */
  function CountWithStatus(rows: seq<MovieInstance>, status: LoanStatus): (n: nat)
    ensures n <= |rows|
    ensures n == multiset(Statuses(rows))[status]
    decreases |rows|
  {
    if rows == [] then 0
    else
      assert Statuses(rows) == [rows[0].status] + Statuses(rows[1..]);
      (if rows[0].status == status then 1 else 0) + CountWithStatus(rows[1..], status)
  }

  /** The counts shown on the home page. */
  datatype IndexCounts = IndexCounts(
    numMovies: nat,
    numInstances: nat,
    numInstancesAvailable: nat,
    numDirectors: nat)

  function Counts(movies: seq<Movie>, instances: seq<MovieInstance>, directors: seq<Director>): (c: IndexCounts)
    ensures c.numMovies == |movies| && c.numInstances == |instances| && c.numDirectors == |directors|
    ensures c.numInstancesAvailable == multiset(Statuses(instances))[Available]
    ensures c.numInstancesAvailable <= c.numInstances
  {
    IndexCounts(|movies|, |instances|, CountWithStatus(instances, Available), |directors|)
  }

  /** The session key under which the home page counts visits. */
  const NumVisitsKey: string := "num_visits"

  /** A visitor's session store. */
  class Session {

    var data: map<string, int>

    constructor (data: map<string, int>)
      ensures this.data == data
    {
      this.data := data;
    }

    /** Reads the visit count (1 when there is none yet) and stores one more. */
    method CountVisit() returns (numVisits: int)
      modifies this
      ensures numVisits == if NumVisitsKey in old(data) then old(data)[NumVisitsKey] else 1
      ensures data == old(data)[NumVisitsKey := numVisits + 1]
    {
      numVisits := if NumVisitsKey in data then data[NumVisitsKey] else 1;
      data := data[NumVisitsKey := numVisits + 1];
    }
  }

  /** What the home page shows: the counts and the visit number. */
  datatype IndexPage = IndexPage(counts: IndexCounts, numVisits: int)

  // ---------------------------------------------------------------------
  // Loan listings

  predicate OnLoanTo(user: UserId, inst: MovieInstance)
  {
    inst.borrower == Some(user) && inst.status == OnLoan
  }

  /** The copies on loan to `user`, in table order. */
  function LoansOf(rows: seq<MovieInstance>, user: UserId): (r: seq<MovieInstance>)
    ensures forall x :: multiset(r)[x] == if OnLoanTo(user, x) then multiset(rows)[x] else 0
    ensures forall x :: x in r <==> x in rows && OnLoanTo(user, x)
    decreases |rows|
  {
    if rows == [] then []
    else
      assert rows == [rows[0]] + rows[1..];
      var rest := LoansOf(rows[1..], user);
      if OnLoanTo(user, rows[0]) then [rows[0]] + rest else rest
  }

  /**
   * The signed-in user's listing: exactly the copies on loan to that user,
   * with as many of each as the table has, by non-decreasing due date.
   */
  function LoanedByUser(rows: seq<MovieInstance>, user: UserId): (r: seq<MovieInstance>)
    ensures forall x :: multiset(r)[x] == if OnLoanTo(user, x) then multiset(rows)[x] else 0
    ensures forall x :: x in r <==> x in rows && OnLoanTo(user, x)
    ensures Sorted(r, InstanceLe)
  {
    InstanceOrderTotalPreorder();
    SortBy(LoansOf(rows, user), InstanceLe)
  }

  /** When no user borrows two copies, a user's listing holds at most one copy. */
  lemma {:induction false} LoansOfAtMostOne(rows: seq<MovieInstance>, user: UserId)
    requires UniqueBorrowers(rows)
    ensures |LoansOf(rows, user)| <= 1
    decreases |rows|
  {
    if rows != [] {
      var tail := rows[1..];
      assert UniqueBorrowers(tail) by {
        forall i, j | 0 <= i < j < |tail| && tail[i].borrower.Some?
          ensures tail[i].borrower != tail[j].borrower
        {
          assert tail[i] == rows[i + 1] && tail[j] == rows[j + 1];
        }
      }
      if OnLoanTo(user, rows[0]) {
        forall j | 0 <= j < |tail| ensures !OnLoanTo(user, tail[j]) {
          assert tail[j] == rows[j + 1];
        }
        assert multiset(LoansOf(tail, user)) == multiset{};
      } else {
        LoansOfAtMostOne(tail, user);
      }
    }
  }

  lemma LoanedByUserAtMostOne(rows: seq<MovieInstance>, user: UserId)
    requires UniqueBorrowers(rows)
    ensures |LoanedByUser(rows, user)| <= 1
  {
    LoansOfAtMostOne(rows, user);
    var r := LoanedByUser(rows, user);
    assert |r| == |multiset(r)| == |multiset(LoansOf(rows, user))|;
  }

  /**
   * The staff listing: every copy, whatever its status (not only those on
   * loan), by non-decreasing due date.
   */
  function AllBorrowed(rows: seq<MovieInstance>): (r: seq<MovieInstance>)
    ensures multiset(r) == multiset(rows)
    ensures forall x :: x in r <==> x in rows
    ensures Sorted(r, InstanceLe)
    ensures forall i, j :: 0 <= i < j < |r| ==> DueBackLe(r[i].dueBack, r[j].dueBack)
  {
    InstanceOrderTotalPreorder();
    var r := SortBy(rows, InstanceLe);
    assert forall i, j :: 0 <= i < j < |r| ==> InstanceLe(r[i], r[j]) by {
      forall i, j | 0 <= i < j < |r| ensures InstanceLe(r[i], r[j]) {
        SortedPairwise(r, InstanceLe, i, j);
      }
    }
    assert forall x :: x in r <==> x in multiset(r);
    r
  }

  /** The staff listing also lists copies that are not on loan. */
  lemma AllBorrowedListsCopiesNotOnLoan(rows: seq<MovieInstance>, k: nat)
    requires k < |rows| && rows[k].status != OnLoan
    ensures rows[k] in AllBorrowed(rows)
  {
    assert rows[k] in rows;
  }

  // ---------------------------------------------------------------------
  // Renewal

  /** The position of the copy with primary key `pk`, if there is one. */
  function FindInstance(rows: seq<MovieInstance>, pk: InstanceId): (r: Option<nat>)
    ensures r.Some? ==> r.value < |rows| && rows[r.value].id == pk
    ensures r.None? ==> forall k :: 0 <= k < |rows| ==> rows[k].id != pk
    decreases |rows|
  {
    if rows == [] then None
    else if rows[0].id == pk then Some(0)
    else
      match FindInstance(rows[1..], pk)
      case None => None
      case Some(k) => Some(k + 1)
  }

  /** How many weeks ahead the renewal form proposes. */
  const ProposedRenewalWeeks: int := 3

  /** The date the renewal form offers first: three weeks ahead, which the form accepts. */
  function ProposedRenewalDate(today: Date): (d: Date)
    ensures today < d && d - today == ProposedRenewalWeeks * 7
    ensures CleanRenewalDate(d, today) == Accepted(d)
  {
    today + ProposedRenewalWeeks * 7
  }

  /** The result of submitting the renewal form. */
  datatype RenewOutcome = NotFound | Invalid(error: RenewalError) | Renewed(dueBack: Date)

  /** The catalog's tables. */
  class Library {

    var movies: seq<Movie>
    var directors: seq<Director>
    var instances: seq<MovieInstance>

    /**
     * The table constraints: unique keys, ISBNs and borrowers, and resolvable
     * movie references, so every copy that names a movie has a text form.
     */
    ghost predicate Valid()
      reads this
      ensures Valid() ==> forall k :: 0 <= k < |instances| && instances[k].movie.Some? ==>
        InstanceStr(instances[k], movies).Some?
    {
      && UniqueIsbn(movies)
      && UniqueMovieIds(movies)
      && UniqueInstanceIds(instances)
      && UniqueBorrowers(instances)
      && MovieRefsResolve(movies, instances)
    }

    constructor (movies: seq<Movie>, directors: seq<Director>, instances: seq<MovieInstance>)
      requires UniqueIsbn(movies) && UniqueMovieIds(movies)
      requires UniqueInstanceIds(instances) && UniqueBorrowers(instances)
      requires MovieRefsResolve(movies, instances)
      ensures Valid()
      ensures this.movies == movies && this.directors == directors && this.instances == instances
    {
      this.movies := movies;
      this.directors := directors;
      this.instances := instances;
    }

    /** The home page: the current counts, and one more visit recorded in the session. */
    method Index(session: Session) returns (page: IndexPage)
      modifies session
      ensures page.counts == Counts(movies, instances, directors)
      ensures page.numVisits == if NumVisitsKey in old(session.data) then old(session.data)[NumVisitsKey] else 1
      ensures session.data == old(session.data)[NumVisitsKey := page.numVisits + 1]
    {
      var counts := Counts(movies, instances, directors);
      var numVisits := session.CountVisit();
      page := IndexPage(counts, numVisits);
    }

    /** The renewal form before submission: the copy and the proposed date, or nothing for an unknown key. */
    method RenewalForm(pk: InstanceId, today: Date) returns (r: Option<(MovieInstance, Date)>)
      ensures r.None? <==> forall k :: 0 <= k < |instances| ==> instances[k].id != pk
      ensures r.Some? ==> r.value.0 in instances && r.value.0.id == pk
      ensures r.Some? ==> r.value.1 == today + 21 && CleanRenewalDate(r.value.1, today).Accepted?
    {
      match FindInstance(instances, pk)
      case None =>
        r := None;
      case Some(k) =>
        r := Some((instances[k], ProposedRenewalDate(today)));
    }

    /**
     * Submits the renewal form: an unknown key is not found; a refused date
     * changes nothing; an accepted date becomes the copy's due date, and no
     * other field and no other copy changes.
     */
    method RenewMovie(pk: InstanceId, renewalDate: Date, today: Date) returns (outcome: RenewOutcome)
      requires Valid()
      modifies this
      ensures Valid()
      ensures movies == old(movies) && directors == old(directors)
      ensures outcome == NotFound <==> forall k :: 0 <= k < |old(instances)| ==> old(instances)[k].id != pk
      ensures outcome.Invalid? <==> outcome != NotFound && CleanRenewalDate(renewalDate, today).Refused?
      ensures outcome.Invalid? ==> CleanRenewalDate(renewalDate, today) == Refused(outcome.error)
      ensures outcome.Renewed? ==> outcome.dueBack == renewalDate
      ensures !outcome.Renewed? ==> instances == old(instances)
      ensures |instances| == |old(instances)|
      ensures forall k :: 0 <= k < |instances| ==>
        instances[k] == if outcome.Renewed? && old(instances)[k].id == pk
                        then old(instances)[k].(dueBack := Some(renewalDate))
                        else old(instances)[k]
      ensures forall k :: 0 <= k < |instances| ==>
        && instances[k].id == old(instances)[k].id
        && instances[k].movie == old(instances)[k].movie
        && instances[k].imprint == old(instances)[k].imprint
        && instances[k].borrower == old(instances)[k].borrower
        && instances[k].status == old(instances)[k].status
    {
      match FindInstance(instances, pk)
      case None =>
        outcome := NotFound;
      case Some(k) =>
        match CleanRenewalDate(renewalDate, today)
        case Refused(e) =>
          outcome := Invalid(e);
        case Accepted(d) =>
          var renewed := instances[k].(dueBack := Some(d));
          assert forall j :: 0 <= j < |instances| && j != k ==> instances[j].id != pk;
          instances := instances[k := renewed];
          outcome := Renewed(d);
      }
    }
  }
