/** Automatic expiration: the earliest of three dates, and where the enrollment deadline comes from. */
module Expiry {
  import opened Wrappers
  import opened StableSorting

  const SECONDS_PER_DAY := 24 * 60 * 60
  const NUM_DAYS_BEFORE_AUTO_EXPIRATION := 90

  datatype Reason = SubsidyExpired | EnrollmentDatePassed | NinetyDaysPassed

  datatype Expiration = Expiration(date: int, reason: Reason)

  datatype Candidate = Candidate(date: Option<int>, reason: Reason)

  /** The enrollment deadline of every course run, by run key, and of the advertised run. */
  datatype ContentMetadata = ContentMetadata(byRun: seq<(string, Option<int>)>, advertised: Option<int>)

  /** What the expiry decision reads about one assignment. */
  datatype Subject = Subject(
    allocatedAt: int,
    preferredRun: Option<string>,
    fromCreditRequest: bool,
    subsidyExpiration: Option<int>,
    metadata: Option<ContentMetadata>)

  // ---------- enrollment deadline strategies ----------

  function DeadlineOfRun(byRun: seq<(string, Option<int>)>, run: string): Option<int> {
    if byRun == [] then None
    else if byRun[0].0 == run then byRun[0].1
    else DeadlineOfRun(byRun[1..], run)
  }

  /** The preferred run's deadline if a run is preferred, else the advertised run's. */
  function DefaultDeadline(s: Subject): Option<int> {
    match s.metadata
    case None => None
    case Some(m) => if Given(s.preferredRun) then DeadlineOfRun(m.byRun, s.preferredRun.value) else m.advertised
  }

  /** The latest of the known run deadlines. */
  function LastRunDeadline(byRun: seq<(string, Option<int>)>): Option<int> {
    if byRun == [] then None
    else
      var rest := LastRunDeadline(byRun[1..]);
      if byRun[0].1.None? || (rest.Some? && byRun[0].1.value <= rest.value) then rest else byRun[0].1
  }

  lemma {:induction false} LastRunIsLatest(byRun: seq<(string, Option<int>)>, i: nat)
    requires i < |byRun| && byRun[i].1.Some?
    ensures LastRunDeadline(byRun).Some? && byRun[i].1.value <= LastRunDeadline(byRun).value
  {
    if i != 0 {
      LastRunIsLatest(byRun[1..], i - 1);
    }
  }

  /** The last run's deadline while it is ahead, otherwise the default deadline. */
  function CreditRequestDeadline(s: Subject, now: int): Option<int> {
    match s.metadata
    case None => None
    case Some(m) =>
      var last := LastRunDeadline(m.byRun);
      if last.Some? && now < last.value then last else DefaultDeadline(s)
  }

  function EnrollmentDeadline(s: Subject, now: int): Option<int> {
    if s.fromCreditRequest then CreditRequestDeadline(s, now) else DefaultDeadline(s)
  }

  /** The deadline listed for a run: its first entry's, or none when the run is not listed. */
  ghost predicate IsListedDeadline(byRun: seq<(string, Option<int>)>, run: string, d: Option<int>) {
    if exists i :: 0 <= i < |byRun| && byRun[i].0 == run
    then exists i :: 0 <= i < |byRun| && byRun[i] == (run, d) && forall j :: 0 <= j < i ==> byRun[j].0 != run
    else d == None
  }

  /** Some run's deadline is still ahead. */
  ghost predicate HasRunAhead(byRun: seq<(string, Option<int>)>, now: int) {
    exists i :: 0 <= i < |byRun| && byRun[i].1.Some? && now < byRun[i].1.value
  }

  /** A deadline of one of the runs, no earlier than any other's. */
  ghost predicate IsLatestDeadline(byRun: seq<(string, Option<int>)>, d: Option<int>) {
    && d.Some?
    && (exists i :: 0 <= i < |byRun| && byRun[i].1 == d)
    && forall i :: 0 <= i < |byRun| && byRun[i].1.Some? ==> byRun[i].1.value <= d.value
  }

  /**
   The enrollment deadline of an assignment: for a credit request with a run ahead the latest run's; otherwise the
   preferred run's if a run is preferred, else the advertised run's; none without metadata.
   */
  ghost predicate IsEnrollmentDeadline(s: Subject, now: int, d: Option<int>) {
    match s.metadata
    case None => d == None
    case Some(m) =>
      if s.fromCreditRequest && HasRunAhead(m.byRun, now) then IsLatestDeadline(m.byRun, d)
      else if s.preferredRun.Some? && s.preferredRun.value != "" then
        IsListedDeadline(m.byRun, s.preferredRun.value, d)
      else d == m.advertised
  }

  lemma {:induction false} DeadlineOfRunIsListed(byRun: seq<(string, Option<int>)>, run: string)
    ensures IsListedDeadline(byRun, run, DeadlineOfRun(byRun, run))
  {
    var d := DeadlineOfRun(byRun, run);
    if byRun != [] && byRun[0].0 != run {
      DeadlineOfRunIsListed(byRun[1..], run);
      if i :| 0 <= i < |byRun| && byRun[i].0 == run {
        assert byRun[1..][i - 1].0 == run;
        var rest := byRun[1..];
        var j :| 0 <= j < |rest| && rest[j] == (run, d) && forall k :: 0 <= k < j ==> rest[k].0 != run;
        assert byRun[j + 1] == (run, d) && forall k :: 1 <= k < j + 1 ==> rest[k - 1] == byRun[k];
      } else {
        assert forall j :: 0 <= j < |byRun[1..]| ==> byRun[1..][j] == byRun[j + 1];
      }
    } else if byRun != [] {
      assert byRun[0] == (run, d);
    }
  }

  lemma {:induction false} LastRunDeadlineIsARuns(byRun: seq<(string, Option<int>)>)
    ensures LastRunDeadline(byRun).Some? ==> exists i :: 0 <= i < |byRun| && byRun[i].1 == LastRunDeadline(byRun)
  {
    if byRun != [] {
      LastRunDeadlineIsARuns(byRun[1..]);
      if LastRunDeadline(byRun) != byRun[0].1 && LastRunDeadline(byRun).Some? {
        var i :| 0 <= i < |byRun[1..]| && byRun[1..][i].1 == LastRunDeadline(byRun);
        assert byRun[i + 1].1 == LastRunDeadline(byRun);
      }
    }
  }

  /** The strategies compute that deadline. */
  lemma StrategiesFindTheDeadline(s: Subject, now: int)
    ensures IsEnrollmentDeadline(s, now, EnrollmentDeadline(s, now))
  {
    if s.metadata.Some? {
      var byRun := s.metadata.value.byRun;
      LastRunDeadlineIsARuns(byRun);
      forall i: nat | i < |byRun| && byRun[i].1.Some?
        ensures LastRunDeadline(byRun).Some? && byRun[i].1.value <= LastRunDeadline(byRun).value
      {
        LastRunIsLatest(byRun, i);
      }
      if Given(s.preferredRun) {
        DeadlineOfRunIsListed(byRun, s.preferredRun.value);
      }
    }
  }

  // ---------- the earliest date ----------

  function AllocationTimeout(allocatedAt: int): int {
    allocatedAt + NUM_DAYS_BEFORE_AUTO_EXPIRATION * SECONDS_PER_DAY
  }

  function Available(candidates: seq<Candidate>): (dates: seq<Expiration>) {
    if candidates == [] then []
    else
      var rest := Available(candidates[1..]);
      if candidates[0].date.None? then rest else [Expiration(candidates[0].date.value, candidates[0].reason)] + rest
  }

  function Candidates(s: Subject, now: int): seq<Candidate> {
    [ Candidate(s.subsidyExpiration, SubsidyExpired),
      Candidate(EnrollmentDeadline(s, now), EnrollmentDatePassed),
      Candidate(Some(AllocationTimeout(s.allocatedAt)), NinetyDaysPassed) ]
  }

  function DateOf(e: Expiration): int {
    e.date
  }

  function SortedDates(s: Subject, now: int): seq<Expiration> {
    Sort(Available(Candidates(s, now)), DateOf)
  }

  lemma AvailableDates(s: Subject, now: int)
    ensures var timeout := Expiration(AllocationTimeout(s.allocatedAt), NinetyDaysPassed);
      var enrollment := EnrollmentDeadline(s, now);
      Available(Candidates(s, now)) ==
        (if s.subsidyExpiration.Some? then [Expiration(s.subsidyExpiration.value, SubsidyExpired)] else [])
        + (if enrollment.Some? then [Expiration(enrollment.value, EnrollmentDatePassed)] else [])
        + [timeout]
  {
    var c := Candidates(s, now);
    assert c[1..] == [c[1], c[2]] && c[1..][1..] == [c[2]] && c[1..][1..][1..] == [];
    assert Available(c[1..][1..]) == [Expiration(AllocationTimeout(s.allocatedAt), NinetyDaysPassed)];
  }

  function AutomaticExpiration(s: Subject, now: int): Expiration {
    AvailableDates(s, now);
    SortHeadIsFirstMinimum(Available(Candidates(s, now)), DateOf);
    SortedDates(s, now)[0]
  }

  /**
   The date always exists, is the earliest of the available ones, never later than
   90 days after allocation, and ties go to the subsidy, then the enrollment deadline.
   */
  lemma ExpirationIsTheEarliestDate(s: Subject, now: int)
    ensures var x, e := AutomaticExpiration(s, now), EnrollmentDeadline(s, now);
      var timeout := AllocationTimeout(s.allocatedAt);
      && x.date <= timeout
      && (s.subsidyExpiration.Some? ==> x.date <= s.subsidyExpiration.value)
      && (e.Some? ==> x.date <= e.value)
      && (x.reason.SubsidyExpired? <==>
           s.subsidyExpiration.Some? && s.subsidyExpiration.value <= timeout
           && (e.Some? ==> s.subsidyExpiration.value <= e.value))
      && (x.reason.EnrollmentDatePassed? <==>
           e.Some? && e.value <= timeout && (s.subsidyExpiration.Some? ==> e.value < s.subsidyExpiration.value))
      && Some(x.date) == (match x.reason
           case SubsidyExpired => s.subsidyExpiration
           case EnrollmentDatePassed => e
           case NinetyDaysPassed => Some(timeout))
  {
    var dates := Available(Candidates(s, now));
    AvailableDates(s, now);
    SortHeadIsFirstMinimum(dates, DateOf);
    var i :| FirstMinimum(dates, DateOf, i) && SortedDates(s, now)[0] == dates[i];
    var x := AutomaticExpiration(s, now);
    assert x == dates[i];
    var e, n := EnrollmentDeadline(s, now), |dates|;
    assert dates[n - 1] == Expiration(AllocationTimeout(s.allocatedAt), NinetyDaysPassed);
    if s.subsidyExpiration.Some? {
      assert dates[0] == Expiration(s.subsidyExpiration.value, SubsidyExpired);
    }
    if e.Some? {
      assert dates[n - 2] == Expiration(e.value, EnrollmentDatePassed);
    }
    assert forall j :: 0 <= j < n ==> DateOf(dates[i]) <= DateOf(dates[j]);
  }

  // ---------- expiring ----------

  /** The reason for which an allocated assignment is expired at a given time, if any. */
  function ExpiryReason(s: Subject, decidedAt: int, now: int): Option<Reason> {
    var x := AutomaticExpiration(s, decidedAt);
    if now < x.date then None else Some(x.reason)
  }

  /**
   An allocated assignment is expired if and only if the subsidy has expired, or its enrollment deadline has come,
   or ninety days have passed since it was allocated.
   */
  lemma ExpiresIff(s: Subject, decidedAt: int, now: int)
    ensures ExpiryReason(s, decidedAt, now).Some? <==>
      || (s.subsidyExpiration.Some? && s.subsidyExpiration.value <= now)
      || (exists d :: IsEnrollmentDeadline(s, decidedAt, Some(d)) && d <= now)
      || s.allocatedAt + 7776000 <= now
  {
    ExpirationIsTheEarliestDate(s, decidedAt);
    StrategiesFindTheDeadline(s, decidedAt);
    forall d | IsEnrollmentDeadline(s, decidedAt, Some(d))
      ensures EnrollmentDeadline(s, decidedAt) == Some(d)
    {
      DeadlineIsUnique(s, decidedAt, Some(d), EnrollmentDeadline(s, decidedAt));
    }
  }

  lemma DeadlineIsUnique(s: Subject, now: int, d: Option<int>, e: Option<int>)
    requires IsEnrollmentDeadline(s, now, d) && IsEnrollmentDeadline(s, now, e)
    ensures d == e
  {
    if s.metadata.Some? && !(s.fromCreditRequest && HasRunAhead(s.metadata.value.byRun, now)) && Given(s.preferredRun) {
      var byRun, run := s.metadata.value.byRun, s.preferredRun.value;
      if exists i :: 0 <= i < |byRun| && byRun[i].0 == run {
        var i :| 0 <= i < |byRun| && byRun[i] == (run, d) && forall j :: 0 <= j < i ==> byRun[j].0 != run;
        var j :| 0 <= j < |byRun| && byRun[j] == (run, e) && forall k :: 0 <= k < j ==> byRun[k].0 != run;
        assert !(i < j) && !(j < i);
      }
    }
  }

  /** A credit request is expired for its enrollment date only once every run's deadline has passed. */
  lemma CreditRequestsExpireAfterEveryRun(s: Subject, decidedAt: int, now: int, i: nat)
    requires decidedAt <= now && s.fromCreditRequest && s.metadata.Some?
    requires ExpiryReason(s, decidedAt, now) == Some(EnrollmentDatePassed)
    requires i < |s.metadata.value.byRun| && s.metadata.value.byRun[i].1.Some?
    ensures s.metadata.value.byRun[i].1.value <= now
  {
    ExpirationIsTheEarliestDate(s, decidedAt);
    LastRunIsLatest(s.metadata.value.byRun, i);
  }
}
