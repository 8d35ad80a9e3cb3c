/**
  The bounded parallel suite scheduler of scripts/run-test-wave.py. What processes, logs and the
  clock do is an environment fixed beforehand but otherwise arbitrary.
 */
module RunWave {
  import opened Sequences

  const KILLED_RC: int := 124
  const EMPTY_RC: int := 97
  const NOT_STARTED_RC: int := 98
  const POLL_MS: int := 50

  datatype Summary = Summary(passed: nat, failed: nat, skipped: nat)

  /**
    Starting a process works, is refused (and noting that can fail before or after the line is written),
    or the log cannot be opened.
   */
  datatype StartOutcome = Started | Refused | RefusedUnwritten | RefusedThenRaised | LogUnopened

  /** Recording a finished suite works, or raises before or after its line is written. */
  datatype RecordOutcome = Recorded | RecordUnwritten | RecordThenRaised

  /**
    The environment: the outcome of starting a suite, its exit code as seen at a numbered sweep, the
    exit code after it was killed (none, when still unknown) or that killing it raises, the summary
    in its log, the outcome of recording it, and the clock in milliseconds at a numbered reading,
    after a number of sleeps.
   */
  datatype Env = Env(
    start: string -> StartOutcome,
    poll: (nat, string) -> Option<int>,
    kill: string -> Option<Option<int>>,
    summary: string -> Option<Summary>,
    record: string -> RecordOutcome,
    clock: (nat, nat) -> int,
    slow: set<string>, timeout: nat, slowTimeout: nat, jobs: nat)

  /** The clock is monotone, and a sleep takes its time. */
  ghost predicate Advancing(env: Env) {
    forall s: nat, r: nat, s': nat, r': nat :: s <= s' && r <= r' ==>
      env.clock(s, r) + POLL_MS * (s' - s) <= env.clock(s', r')
  }

  datatype Active = Active(name: string, started: int, timeout: nat)

  datatype Line = Line(name: string, rc: int, passed: nat, failed: nat, skipped: nat, secs: nat)

  function ActiveNames(a: seq<Active>): (ns: seq<string>)
    ensures |ns| == |a| && forall i :: 0 <= i < |a| ==> ns[i] == a[i].name
  {
    seq(|a|, i requires 0 <= i < |a| => a[i].name)
  }

  function LineNames(ls: seq<Line>): (ns: seq<string>)
    ensures |ns| == |ls| && forall i :: 0 <= i < |ls| ==> ns[i] == ls[i].name
  {
    seq(|ls|, i requires 0 <= i < |ls| => ls[i].name)
  }

  // ----- the suite file

  datatype Suites = Names(names: seq<string>) | Malformed(name: string) | Duplicate

  predicate IsSuiteChar(c: char) {
    'a' <= c <= 'z' || '0' <= c <= '9' || c == '_'
  }

  predicate IsSuiteName(s: string) {
    s != "" && forall i :: 0 <= i < |s| ==> IsSuiteChar(s[i])
  }

  /** Not empty, and of characters with the codes of a to z, of 0 to 9 and of the underscore. */
  predicate WellNamed(s: string) {
    |s| > 0 && forall i :: 0 <= i < |s| ==>
      97 <= s[i] as int <= 122 || 48 <= s[i] as int <= 57 || s[i] as int == 95
  }

  lemma NameIsWellNamed(s: string)
    ensures IsSuiteName(s) <==> WellNamed(s)
  {
    assert 'a' as int == 97 && 'z' as int == 122 && '0' as int == 48 && '9' as int == 57 && '_' as int == 95;
  }

  /** read_suites: the first malformed name, else a duplicate, else the names as they stand. */
  method ReadSuites(lines: seq<string>) returns (r: Suites)
    ensures r.Names? <==> Distinct(lines) && forall i :: 0 <= i < |lines| ==> WellNamed(lines[i])
    ensures r.Names? ==> r.names == lines
    ensures r.Malformed? <==> exists i :: 0 <= i < |lines| && !WellNamed(lines[i])
    ensures r.Malformed? ==> exists i :: 0 <= i < |lines| && r.name == lines[i] && !WellNamed(lines[i]) &&
                                         forall j :: 0 <= j < i ==> WellNamed(lines[j])
  {
    for i := 0 to |lines|
      invariant forall j :: 0 <= j < i ==> WellNamed(lines[j])
    {
      NameIsWellNamed(lines[i]);
      if !IsSuiteName(lines[i]) {
        return Malformed(lines[i]);
      }
    }
    DistinctIffSize(lines);
    r := if |Elements(lines)| != |lines| then Duplicate else Names(lines);
  }

  // ----- result lines

  function Counts(env: Env, name: string): Summary {
    var s := env.summary(name);
    if s.Some? then s.value else Summary(0, 0, 0)
  }

  function TimeoutOf(env: Env, name: string): nat {
    if name in env.slow then env.slowTimeout else env.timeout
  }

  /** Exit code 0 counts only with a completion summary in the log. */
  function Reported(env: Env, name: string, rc: int): int {
    if rc == 0 && env.summary(name).None? then EMPTY_RC else rc
  }

  /** The code of a suite seen to exit, or killed. */
  function CodeOf(env: Env, name: string, rc: Option<int>): int {
    if rc.Some? then Reported(env, name, rc.value) else KILLED_RC
  }

  /** Its line, when it is recorded at a time. */
  function EndLine(env: Env, a: Active, rc: Option<int>, at: int): Line {
    var s := Counts(env, a.name);
    Line(a.name, CodeOf(env, a.name, rc), s.passed, s.failed, s.skipped,
         if at < a.started then 0 else (at - a.started) / 1000)
  }

  /** A suite as it becomes active. */
  function Starting(env: Env, name: string, now: int): Active {
    Active(name, now, TimeoutOf(env, name))
  }

  function RefusalLine(name: string): Line {
    Line(name, NOT_STARTED_RC, 0, 0, 0, 0)
  }

  // ----- what happened so far

  /** A numbered reading of the clock, after a number of sleeps. */
  datatype Instant = Instant(sleeps: nat, reading: nat)

  function At(env: Env, i: Instant): int {
    env.clock(i.sleeps, i.reading)
  }

  predicate Before(i: Instant, j: Instant) {
    i.sleeps <= j.sleeps && i.reading < j.reading
  }

  predicate NotAfter(i: Instant, j: Instant) {
    i.sleeps <= j.sleeps && i.reading <= j.reading
  }

  /** A suite was started, and a sweep looked at a suite. */
  datatype Began = Began(name: string, at: Instant)

  datatype Look = Look(name: string, at: Instant)

  datatype History = History(begun: set<Began>, looks: set<Look>)

  /** Everything happened up to now, and the looks one after the other. */
  ghost predicate Dated(h: History, now: Instant) {
    && (forall b {:trigger Before(b.at, now)} :: b in h.begun ==> Before(b.at, now))
    && (forall u {:trigger NotAfter(u.at, now)} :: u in h.looks ==> NotAfter(u.at, now))
    && (forall u, v {:trigger Before(u.at, v.at)} ::
          u in h.looks && v in h.looks && u.at.reading < v.at.reading ==> Before(u.at, v.at))
  }

  lemma DatedLater(h: History, now: Instant, now': Instant)
    requires Dated(h, now) && NotAfter(now, now')
    ensures Dated(h, now')
  {
    forall b | b in h.begun
      ensures Before(b.at, now')
    {
      assert Before(b.at, now);
    }
    forall u | u in h.looks
      ensures NotAfter(u.at, now')
    {
      assert NotAfter(u.at, now);
    }
  }

  lemma BeganNow(h: History, b: Began)
    requires Dated(h, b.at)
    ensures Dated(h.(begun := h.begun + {b}), Instant(b.at.sleeps, b.at.reading + 1))
  {
    DatedLater(h, b.at, Instant(b.at.sleeps, b.at.reading + 1));
  }

  /** A suite is to be settled when it has exited, or when its time is up. */
  predicate Due(env: Env, b: Began, at: Instant) {
    env.poll(at.reading, b.name).Some? || At(env, at) - At(env, b.at) >= TimeoutOf(env, b.name)
  }

  ghost predicate NeverDue(env: Env, looks: set<Look>, b: Began) {
    forall u :: u in looks && u.name == b.name && Before(b.at, u.at) ==> !Due(env, b, u.at)
  }

  function Earlier(looks: set<Look>, n: nat): (e: set<Look>) {
    set u | u in looks && u.at.reading < n
  }

  /** Of the looks at a suite since its start, this is the first that found it to be settled. */
  ghost predicate DueFirst(env: Env, h: History, b: Began, at: Instant) {
    && b in h.begun && Look(b.name, at) in h.looks && Before(b.at, at)
    && Due(env, b, at) && NeverDue(env, Earlier(h.looks, at.reading), b)
  }

  /** There is only one such look. */
  lemma OneEnd(env: Env, h: History, b: Began, i: Instant, j: Instant)
    requires DueFirst(env, h, b, i) && DueFirst(env, h, b, j)
    ensures i.reading == j.reading
  {
    assert i.reading < j.reading ==> Look(b.name, i) in Earlier(h.looks, j.reading);
    assert j.reading < i.reading ==> Look(b.name, j) in Earlier(h.looks, i.reading);
  }

  /** At the first look that found a suite to be settled, polling it gave rc. */
  ghost predicate Ended(env: Env, h: History, name: string, rc: Option<int>) {
    exists b, at :: DueFirst(env, h, b, at) && b.name == name && env.poll(at.reading, name) == rc
  }

  /** It was still running, that is: its time was up. */
  ghost predicate WasOverdue(env: Env, h: History, name: string) {
    Ended(env, h, name, None)
  }

  /** What a line may say: that the suite did not start, or how it was found at its end. */
  ghost predicate Truthful(env: Env, h: History, l: Line) {
    || (!env.start(l.name).Started? && l == RefusalLine(l.name))
    || (env.start(l.name).Started? && Summary(l.passed, l.failed, l.skipped) == Counts(env, l.name) &&
        exists rc :: Ended(env, h, l.name, rc) && l.rc == CodeOf(env, l.name, rc))
  }

  /** A line that reports success: the suite was started, found to have exited 0 by itself, and printed a summary. */
  lemma SuccessIsReal(env: Env, h: History, l: Line)
    requires Truthful(env, h, l) && l.rc == 0
    ensures env.start(l.name).Started? && env.summary(l.name).Some?
    ensures Summary(l.passed, l.failed, l.skipped) == env.summary(l.name).value
    ensures Ended(env, h, l.name, Some(0))
  {
  }

  /**
    A line that reports a kill: the suite was found to have exited with that code by itself, or found
    running, its time up, at no earlier look.
   */
  lemma KillHasReason(env: Env, h: History, l: Line)
    requires Truthful(env, h, l) && l.rc == KILLED_RC
    ensures || Ended(env, h, l.name, Some(KILLED_RC))
            || exists b, at :: DueFirst(env, h, b, at) && b.name == l.name && env.poll(at.reading, l.name).None? &&
                               At(env, at) - At(env, b.at) >= TimeoutOf(env, l.name)
  {
    var rc :| Ended(env, h, l.name, rc) && l.rc == CodeOf(env, l.name, rc);
    var b, at :| DueFirst(env, h, b, at) && b.name == l.name && env.poll(at.reading, l.name) == rc;
    assert rc.Some? ==> rc == Some(KILLED_RC);
  }

  ghost predicate SameIfNamed(b: Began, c: Began) {
    b.name == c.name ==> b == c
  }

  /** No suite is started twice. */
  ghost predicate StartedOnce(h: History) {
    forall b, c {:trigger SameIfNamed(b, c)} :: b in h.begun && c in h.begun ==> SameIfNamed(b, c)
  }

  /** A look at a suite that was not the last found it neither exited nor overdue. */
  ghost predicate GoesOn(env: Env, b: Began, u: Look, v: Look) {
    u.name == b.name == v.name && Before(b.at, u.at) && u.at.reading < v.at.reading ==> !Due(env, b, u.at)
  }

  ghost predicate AllGoOn(env: Env, h: History) {
    forall b, u, v {:trigger GoesOn(env, b, u, v)} ::
      b in h.begun && u in h.looks && v in h.looks ==> GoesOn(env, b, u, v)
  }

  /** So what a line says of the end of a suite is settled by what happened. */
  lemma LinesAgree(env: Env, h: History, l: Line, l': Line)
    requires StartedOnce(h) && Truthful(env, h, l) && Truthful(env, h, l') && l.name == l'.name
    ensures l.(secs := 0) == l'.(secs := 0)
  {
    if env.start(l.name).Started? {
      var rc :| Ended(env, h, l.name, rc) && l.rc == CodeOf(env, l.name, rc);
      var rc' :| Ended(env, h, l.name, rc') && l'.rc == CodeOf(env, l.name, rc');
      var b, i :| DueFirst(env, h, b, i) && b.name == l.name && env.poll(i.reading, l.name) == rc;
      var c, j :| DueFirst(env, h, c, j) && c.name == l.name && env.poll(j.reading, l.name) == rc';
      assert SameIfNamed(b, c);
      OneEnd(env, h, b, i, j);
    }
  }

  /** More may happen, but nothing is looked at earlier than what was looked at before. */
  ghost predicate Later(h: History, h': History) {
    && h.begun <= h'.begun && h.looks <= h'.looks
    && forall u, v :: u in h'.looks && u !in h.looks && v in h.looks ==> v.at.reading <= u.at.reading
  }

  lemma EarlierStays(h: History, h': History, u: Look)
    requires Later(h, h') && u in h.looks
    ensures Earlier(h'.looks, u.at.reading) == Earlier(h.looks, u.at.reading)
  {
  }

  lemma EndedLater(env: Env, h: History, h': History, name: string, rc: Option<int>)
    requires Ended(env, h, name, rc) && Later(h, h')
    ensures Ended(env, h', name, rc)
  {
    var b, at :| DueFirst(env, h, b, at) && b.name == name && env.poll(at.reading, name) == rc;
    EarlierStays(h, h', Look(name, at));
    assert DueFirst(env, h', b, at);
  }

  lemma TruthfulLater(env: Env, h: History, h': History, l: Line)
    requires Truthful(env, h, l) && Later(h, h')
    ensures Truthful(env, h', l)
  {
    if env.start(l.name).Started? {
      var rc :| Ended(env, h, l.name, rc) && l.rc == CodeOf(env, l.name, rc);
      EndedLater(env, h, h', l.name, rc);
    }
  }

  // ----- accounting

  ghost function Booked(pending: seq<string>, active: seq<Active>, results: seq<Line>): multiset<string> {
    multiset(pending) + multiset(ActiveNames(active)) + multiset(LineNames(results))
  }

  ghost predicate Accounts(suites: seq<string>, booked: multiset<string>, s: string) {
    multiset(suites)[s] == booked[s]
  }

  /** Every suite is pending, active or recorded, and only one of them. */
  ghost predicate Partition(suites: seq<string>, pending: seq<string>, active: seq<Active>, results: seq<Line>) {
    forall s :: Accounts(suites, Booked(pending, active, results), s)
  }

  lemma PartitionIs(suites: seq<string>, pending: seq<string>, active: seq<Active>, results: seq<Line>)
    ensures Partition(suites, pending, active, results) <==> multiset(suites) == Booked(pending, active, results)
  {
    if Partition(suites, pending, active, results) {
      forall s
        ensures multiset(suites)[s] == Booked(pending, active, results)[s]
      {
        assert Accounts(suites, Booked(pending, active, results), s);
      }
    }
  }

  /** What may be on record when the wave was broken off: no suite twice. */
  ghost predicate NoneTwice(suites: seq<string>, results: seq<Line>) {
    multiset(LineNames(results)) <= multiset(suites)
  }

  lemma LineNamesAppend(ls: seq<Line>, l: Line)
    ensures LineNames(ls + [l]) == LineNames(ls) + [l.name]
  {
  }

  lemma ActiveNamesAppend(a: seq<Active>, x: Active)
    ensures ActiveNames(a + [x]) == ActiveNames(a) + [x.name]
  {
  }

  lemma ActiveNamesConcat(a: seq<Active>, b: seq<Active>)
    ensures ActiveNames(a + b) == ActiveNames(a) + ActiveNames(b)
  {
  }

  lemma ActiveNamesMiddle(a: seq<Active>, x: Active, b: seq<Active>)
    ensures multiset(ActiveNames(a + [x] + b)) == multiset(ActiveNames(a + b)) + multiset{x.name}
  {
    ActiveNamesConcat(a + [x], b);
    ActiveNamesConcat(a, b);
    ActiveNamesAppend(a, x);
  }

  /** The head of the queue becomes active. */
  lemma PartitionStart(suites: seq<string>, pending: seq<string>, active: seq<Active>, results: seq<Line>, x: Active)
    requires pending != [] && x.name == pending[0] && Partition(suites, pending, active, results)
    ensures Partition(suites, pending[1..], active + [x], results)
  {
    assert pending == [pending[0]] + pending[1..];
    ActiveNamesAppend(active, x);
    PartitionIs(suites, pending, active, results);
    PartitionIs(suites, pending[1..], active + [x], results);
  }

  /** The head of the queue is recorded without having been active. */
  lemma PartitionRefused(suites: seq<string>, pending: seq<string>, active: seq<Active>, results: seq<Line>, l: Line)
    requires pending != [] && l.name == pending[0] && Partition(suites, pending, active, results)
    ensures Partition(suites, pending[1..], active, results + [l])
    ensures NoneTwice(suites, results) && NoneTwice(suites, results + [l])
  {
    assert pending == [pending[0]] + pending[1..];
    LineNamesAppend(results, l);
    PartitionIs(suites, pending, active, results);
    PartitionIs(suites, pending[1..], active, results + [l]);
  }

  /** The head of the queue is lost. */
  lemma PartitionLost(suites: seq<string>, pending: seq<string>, active: seq<Active>, results: seq<Line>)
    requires pending != [] && Partition(suites, pending, active, results)
    ensures multiset(suites) == Booked(pending[1..], active, results) + multiset{pending[0]}
  {
    PartitionIs(suites, pending, active, results);
    assert pending == [pending[0]] + pending[1..];
  }

  /** An active suite is recorded. */
  lemma PartitionRecord(suites: seq<string>, pending: seq<string>, a: seq<Active>, x: Active, b: seq<Active>,
                        results: seq<Line>, l: Line)
    requires l.name == x.name && Partition(suites, pending, a + [x] + b, results)
    ensures Partition(suites, pending, a + b, results + [l])
    ensures NoneTwice(suites, results) && NoneTwice(suites, results + [l])
  {
    ActiveNamesMiddle(a, x, b);
    LineNamesAppend(results, l);
    PartitionIs(suites, pending, a + [x] + b, results);
    PartitionIs(suites, pending, a + b, results + [l]);
  }

  lemma PartitionEnd(suites: seq<string>, results: seq<Line>)
    requires Partition(suites, [], [], results)
    ensures multiset(LineNames(results)) == multiset(suites) && |results| == |suites|
  {
    PartitionIs(suites, [], [], results);
    assert |multiset(LineNames(results))| == |LineNames(results)|;
    assert |multiset(suites)| == |suites|;
  }

  /** Distinct suites with the same names on record: one line each. */
  lemma OneLineEach(suites: seq<string>, results: seq<Line>, s: string)
    requires Distinct(suites) && NoneTwice(suites, results)
    ensures multiset(LineNames(results))[s] <= 1
    ensures multiset(LineNames(results)) == multiset(suites) ==> (multiset(LineNames(results))[s] == 1 <==> s in suites)
  {
    DistinctOnce(suites, s);
  }

  // ----- the scheduler

  /** The books of a wave, with what happened, and the suites told to stop, in order. */
  datatype Books = Books(pending: seq<string>, active: seq<Active>, results: seq<Line>, unattended: set<string>,
                         past: History, told: seq<string>)

  ghost predicate AllTruthful(env: Env, h: History, results: seq<Line>) {
    forall i {:trigger Truthful(env, h, results[i])} :: 0 <= i < |results| ==> Truthful(env, h, results[i])
  }

  ghost predicate AllOverdue(env: Env, h: History, told: seq<string>) {
    forall i {:trigger WasOverdue(env, h, told[i])} :: 0 <= i < |told| ==> WasOverdue(env, h, told[i])
  }

  /** The processes that nobody has seen exit or told to stop belong to active suites. */
  ghost predicate Attended(unattended: set<string>, active: seq<Active>) {
    forall s {:trigger s in unattended} :: s in unattended ==> s in ActiveNames(active)
  }

  /** Lines are true, only overdue suites were told to stop, and none was started twice. */
  ghost predicate Honest(env: Env, b: Books) {
    && AllTruthful(env, b.past, b.results) && AllOverdue(env, b.past, b.told)
    && StartedOnce(b.past) && AllGoOn(env, b.past)
    && Attended(b.unattended, b.active)
  }

  ghost predicate IsBooked(b: Books, name: string) {
    name in ActiveNames(b.active) || name in LineNames(b.results)
  }

  /** Every suite started is active or recorded. */
  ghost predicate AllBooked(b: Books) {
    forall x {:trigger IsBooked(b, x.name)} :: x in b.past.begun ==> IsBooked(b, x.name)
  }

  ghost predicate Awaits(env: Env, h: History, a: Active, b: Began) {
    b in h.begun && b.name == a.name && At(env, b.at) == a.started && NeverDue(env, h.looks, b)
  }

  /** An active suite was started when it says, has the time of its name, and no look found it to be settled. */
  ghost predicate Awaited(env: Env, h: History, a: Active) {
    env.start(a.name).Started? && a.timeout == TimeoutOf(env, a.name) && exists b :: Awaits(env, h, a, b)
  }

  ghost predicate AllAwaited(env: Env, h: History, active: seq<Active>) {
    forall i {:trigger Awaited(env, h, active[i])} :: 0 <= i < |active| ==> Awaited(env, h, active[i])
  }

  /** Nothing is raised for a suite when it is started and recorded. */
  predicate Smooth(env: Env, name: string) {
    env.start(name).Refused? || (env.start(name).Started? && env.record(name).Recorded?)
  }

  ghost predicate AllSmooth(env: Env, names: seq<string>) {
    forall s {:trigger Smooth(env, s)} :: s in names ==> Smooth(env, s)
  }

  ghost predicate AllStopped(env: Env, told: seq<string>) {
    forall s :: s in told ==> env.kill(s).Some?
  }

  /** Suites are taken from the queue in order: those left are the last ones. */
  predicate InTurn(suites: seq<string>, pending: seq<string>) {
    suites == pending || (suites != [] && InTurn(suites[1..], pending))
  }

  /** The books that may stand at an instant when nothing has been raised. */
  ghost function Orderly(env: Env, suites: seq<string>, at: Instant): iset<Books> {
    iset b: Books |
      && Distinct(suites) && Dated(b.past, at) && |b.active| <= env.jobs
      && Partition(suites, b.pending, b.active, b.results) && InTurn(suites, b.pending)
      && Honest(env, b) && AllAwaited(env, b.past, b.active) && AllBooked(b)
      && AllSmooth(env, LineNames(b.results)) && AllStopped(env, b.told)
  }

  ghost predicate InOrder(env: Env, suites: seq<string>, b: Books, at: Instant) {
    b in Orderly(env, suites, at)
  }

  /** Starting a suite raised: it is the one last taken from the queue, and lost unless its line was written. */
  ghost predicate StartRaised(env: Env, suites: seq<string>, b: Books, x: string) {
    && InTurn(suites, [x] + b.pending)
    && !Smooth(env, x) && !env.start(x).Started?
    && if env.start(x).RefusedThenRaised?
       then Partition(suites, b.pending, b.active, b.results) && RefusalLine(x) in b.results
       else multiset(suites) == Booked(b.pending, b.active, b.results) + multiset{x}
  }

  /** Stopping or recording an active suite raised when it was to be settled; its line may have been written. */
  ghost predicate EndRaised(env: Env, suites: seq<string>, b: Books, x: string) {
    && x in ActiveNames(b.active) && env.start(x).Started?
    && exists rc :: Ended(env, b.past, x, rc) &&
         if rc.None? && env.kill(x).None? then Partition(suites, b.pending, b.active, b.results)
         else match env.record(x)
              case Recorded => false
              case RecordUnwritten => Partition(suites, b.pending, b.active, b.results)
              case RecordThenRaised => x in LineNames(b.results) &&
                                       multiset(suites) + multiset{x} == Booked(b.pending, b.active, b.results)
  }

  ghost predicate RaisedBy(env: Env, suites: seq<string>, b: Books, x: string) {
    InTurn(suites, b.pending) && (StartRaised(env, suites, b, x) || EndRaised(env, suites, b, x))
  }

  /** The books that may stand when something was raised. */
  ghost function Raised(env: Env, suites: seq<string>, at: Instant): iset<Books> {
    iset b: Books |
      Dated(b.past, at) && Honest(env, b) && AllBooked(b) && exists x :: RaisedBy(env, suites, b, x)
  }

  ghost predicate BrokenOff(env: Env, suites: seq<string>, b: Books, at: Instant) {
    b in Raised(env, suites, at)
  }

  lemma StillStands(env: Env, suites: seq<string>, b: Books, at: Instant, at': Instant)
    requires NotAfter(at, at')
    ensures InOrder(env, suites, b, at) ==> InOrder(env, suites, b, at')
    ensures BrokenOff(env, suites, b, at) ==> BrokenOff(env, suites, b, at')
  {
    if Dated(b.past, at) {
      DatedLater(b.past, at, at');
    }
  }

  lemma BagParts(s: multiset<string>, p: multiset<string>, a: multiset<string>, l: multiset<string>, x: string)
    requires x in a
    ensures s == p + a + l ==> l <= s && x in s
    ensures x in l && s + multiset{x} == p + a + l ==> l <= s && x in s
  {
    if x in l && s + multiset{x} == p + a + l {
      forall y
        ensures l[y] <= s[y]
      {
        assert (s + multiset{x})[y] == (p + a + l)[y];
      }
      assert (s + multiset{x})[x] == (p + a + l)[x];
    }
  }

  lemma EndRaisedMeans(env: Env, suites: seq<string>, b: Books, x: string)
    requires EndRaised(env, suites, b, x)
    ensures NoneTwice(suites, b.results) && x in suites
    ensures env.record(x).Recorded? ==> env.kill(x).None?
  {
    PartitionIs(suites, b.pending, b.active, b.results);
    BagParts(multiset(suites), multiset(b.pending), multiset(ActiveNames(b.active)), multiset(LineNames(b.results)), x);
    assert x in multiset(suites);
  }

  /** Even then no suite is on record twice, and the suite that raised is not as it should be. */
  lemma RaisedMeans(env: Env, suites: seq<string>, b: Books, x: string)
    requires RaisedBy(env, suites, b, x)
    ensures NoneTwice(suites, b.results) && x in suites
    ensures !Smooth(env, x) || (x in ActiveNames(b.active) && env.kill(x).None?)
  {
    if StartRaised(env, suites, b, x) {
      PartitionIs(suites, b.pending, b.active, b.results);
      TurnTaken(suites, [x] + b.pending);
    } else {
      EndRaisedMeans(env, suites, b, x);
    }
  }

  /** What a suite that starts, is refused, or ends does to the books. */
  function AfterStart(b: Books, x: Active, at: Instant): Books
    requires b.pending != []
  {
    b.(pending := b.pending[1..], active := b.active + [x], unattended := b.unattended + {x.name},
       past := b.past.(begun := b.past.begun + {Began(x.name, at)}))
  }

  function AfterRefusal(b: Books, l: Line): Books
    requires b.pending != []
  {
    b.(pending := b.pending[1..], results := b.results + [l])
  }

  /** The head of the queue is started, or refused, or lost. */
  function AfterHead(env: Env, b: Books, at: Instant): Books
    requires b.pending != []
  {
    var suite := b.pending[0];
    match env.start(suite)
    case Started => AfterStart(b, Starting(env, suite, At(env, at)), at)
    case Refused => AfterRefusal(b, RefusalLine(suite))
    case RefusedThenRaised => AfterRefusal(b, RefusalLine(suite))
    case _ => b.(pending := b.pending[1..])
  }

  function WithLook(h: History, u: Look): History {
    h.(looks := h.looks + {u})
  }

  /** It was looked at. */
  function Looked(b: Books, k: nat, at: Instant): Books
    requires k < |b.active|
  {
    b.(past := WithLook(b.past, Look(b.active[k].name, at)))
  }

  /** It was seen to have exited, or is told to stop. */
  function Settling(b: Books, k: nat, killed: bool): Books
    requires k < |b.active|
  {
    var name := b.active[k].name;
    b.(unattended := b.unattended - {name}, told := if killed then b.told + [name] else b.told)
  }

  function AfterEnd(b: Books, k: nat, killed: bool, l: Line): Books
    requires k < |b.active|
  {
    Settling(b, k, killed).(active := Without(b.active, k), results := b.results + [l])
  }

  /**
    A settled suite in the books: told to stop when it had no exit code, recorded and taken off unless
    something is raised.
   */
  function AfterSettling(env: Env, b: Books, k: nat, rc: Option<int>, l: Line): Books
    requires k < |b.active|
  {
    var name := b.active[k].name;
    if (rc.None? && env.kill(name).None?) || env.record(name) == RecordUnwritten then Settling(b, k, rc.None?)
    else if env.record(name) == RecordThenRaised then AfterEnd(b, k, rc.None?, l).(active := b.active)
    else AfterEnd(b, k, rc.None?, l)
  }

  // ----- starts and refusals

  lemma HonestLater(env: Env, b: Books, h: History)
    requires Honest(env, b) && Later(b.past, h) && StartedOnce(h) && AllGoOn(env, h)
    ensures Honest(env, b.(past := h))
  {
    forall i | 0 <= i < |b.results|
      ensures Truthful(env, h, b.results[i])
    {
      TruthfulLater(env, b.past, h, b.results[i]);
    }
    forall i | 0 <= i < |b.told|
      ensures WasOverdue(env, h, b.told[i])
    {
      assert WasOverdue(env, b.past, b.told[i]);
      EndedLater(env, b.past, h, b.told[i], None);
    }
  }

  /** The head of the queue is neither active nor recorded. */
  lemma HeadIsNew(suites: seq<string>, b: Books)
    requires Distinct(suites) && Partition(suites, b.pending, b.active, b.results) && b.pending != []
    ensures !IsBooked(b, b.pending[0])
  {
    var x := b.pending[0];
    DistinctOnce(suites, x);
    assert Accounts(suites, Booked(b.pending, b.active, b.results), x);
    assert x in multiset(b.pending);
    assert IsBooked(b, x) ==> x in multiset(ActiveNames(b.active)) || x in multiset(LineNames(b.results));
  }

  lemma NewStart(b: Books, x: Began)
    requires StartedOnce(b.past) && AllBooked(b) && !IsBooked(b, x.name)
    ensures StartedOnce(b.past.(begun := b.past.begun + {x}))
  {
    forall y | y in b.past.begun
      ensures y.name != x.name
    {
      assert IsBooked(b, y.name);
    }
    forall y, z | y in b.past.begun + {x} && z in b.past.begun + {x}
      ensures SameIfNamed(y, z)
    {
    }
  }

  // All looks were before this start.
  lemma StartGoesOn(env: Env, h: History, x: Began)
    requires AllGoOn(env, h) && Dated(h, x.at)
    ensures AllGoOn(env, h.(begun := h.begun + {x}))
  {
    forall b, u, v | b in h.begun + {x} && u in h.looks && v in h.looks
      ensures GoesOn(env, b, u, v)
    {
      assert NotAfter(u.at, x.at);
      assert b in h.begun ==> GoesOn(env, b, u, v);
    }
  }

  // A suite that was still awaited goes on until this look.
  lemma LookGoesOn(env: Env, h: History, a: Active, w: Look)
    requires AllGoOn(env, h) && Dated(h, w.at) && StartedOnce(h) && Awaited(env, h, a) && w.name == a.name
    ensures AllGoOn(env, WithLook(h, w))
  {
    var h' := WithLook(h, w);
    var c :| Awaits(env, h, a, c);
    forall b, u, v | b in h'.begun && u in h'.looks && v in h'.looks
      ensures GoesOn(env, b, u, v)
    {
      assert u in h.looks && v in h.looks ==> GoesOn(env, b, u, v);
      assert v in h.looks ==> NotAfter(v.at, w.at);
      assert SameIfNamed(b, c);
    }
  }

  lemma StartStaysHonest(env: Env, b: Books, x: Active, at: Instant)
    requires Honest(env, b) && b.pending != [] && AllBooked(b) && !IsBooked(b, x.name) && Dated(b.past, at)
    ensures Honest(env, AfterStart(b, x, at)) && AllBooked(AfterStart(b, x, at))
  {
    var b' := AfterStart(b, x, at);
    NewStart(b, Began(x.name, at));
    StartGoesOn(env, b.past, Began(x.name, at));
    HonestLater(env, b, b'.past);
    ActiveNamesAppend(b.active, x);
    forall y | y in b'.past.begun
      ensures IsBooked(b', y.name)
    {
      assert y in b.past.begun ==> IsBooked(b, y.name);
    }
  }

  lemma AwaitedStays(env: Env, h: History, h': History, a: Active)
    requires Awaited(env, h, a) && h.begun <= h'.begun && h'.looks == h.looks
    ensures Awaited(env, h', a)
  {
    var b :| Awaits(env, h, a, b);
    assert Awaits(env, h', a, b);
  }

  lemma StartIsAwaited(env: Env, b: Books, x: Active, at: Instant)
    requires AllAwaited(env, b.past, b.active) && b.pending != [] && Dated(b.past, at)
    requires env.start(x.name).Started? && x == Starting(env, x.name, At(env, at))
    ensures AllAwaited(env, AfterStart(b, x, at).past, b.active + [x])
  {
    var b' := AfterStart(b, x, at);
    forall i | 0 <= i <= |b.active|
      ensures Awaited(env, b'.past, (b.active + [x])[i])
    {
      if i < |b.active| {
        AwaitedStays(env, b.past, b'.past, b.active[i]);
      } else {
        forall u | u in b.past.looks
          ensures !Before(at, u.at)
        {
          assert NotAfter(u.at, at);
        }
        assert Awaits(env, b'.past, x, Began(x.name, at));
      }
    }
  }

  lemma {:induction false} TurnTaken(suites: seq<string>, pending: seq<string>)
    requires InTurn(suites, pending) && pending != []
    ensures InTurn(suites, pending[1..]) && InTurn(suites, [pending[0]] + pending[1..]) && pending[0] in suites
  {
    assert pending == [pending[0]] + pending[1..];
    if suites != pending {
      TurnTaken(suites[1..], pending);
    }
  }

  lemma StartKeepsOrder(env: Env, suites: seq<string>, b: Books, x: Active, at: Instant)
    requires InOrder(env, suites, b, at) && b.pending != [] && |b.active| < env.jobs
    requires x == Starting(env, b.pending[0], At(env, at)) && env.start(x.name).Started?
    ensures InOrder(env, suites, AfterStart(b, x, at), Instant(at.sleeps, at.reading + 1))
  {
    PartitionStart(suites, b.pending, b.active, b.results, x);
    TurnTaken(suites, b.pending);
    HeadIsNew(suites, b);
    StartStaysHonest(env, b, x, at);
    StartIsAwaited(env, b, x, at);
    BeganNow(b.past, Began(x.name, at));
  }

  lemma RefusalStaysHonest(env: Env, b: Books, l: Line)
    requires Honest(env, b) && b.pending != [] && l == RefusalLine(l.name) && !env.start(l.name).Started?
    ensures Honest(env, AfterRefusal(b, l)) && (AllBooked(b) ==> AllBooked(AfterRefusal(b, l)))
  {
    LineNamesAppend(b.results, l);
    if AllBooked(b) {
      forall x | x in b.past.begun
        ensures IsBooked(AfterRefusal(b, l), x.name)
      {
        assert IsBooked(b, x.name);
      }
    }
  }

  lemma SmoothAppend(env: Env, results: seq<Line>, l: Line)
    requires AllSmooth(env, LineNames(results)) && Smooth(env, l.name)
    ensures AllSmooth(env, LineNames(results + [l]))
  {
    LineNamesAppend(results, l);
  }

  lemma RefusalKeepsOrder(env: Env, suites: seq<string>, b: Books, at: Instant)
    requires InOrder(env, suites, b, at) && b.pending != [] && env.start(b.pending[0]).Refused?
    ensures InOrder(env, suites, AfterRefusal(b, RefusalLine(b.pending[0])), at)
  {
    var l := RefusalLine(b.pending[0]);
    PartitionRefused(suites, b.pending, b.active, b.results, l);
    TurnTaken(suites, b.pending);
    SmoothAppend(env, b.results, l);
    RefusalStaysHonest(env, b, l);
  }

  lemma RefusalRaised(env: Env, suites: seq<string>, b: Books, l: Line)
    requires Partition(suites, b.pending, b.active, b.results) && InTurn(suites, b.pending) && b.pending != []
    requires l == RefusalLine(b.pending[0]) && env.start(l.name).RefusedThenRaised?
    ensures RaisedBy(env, suites, AfterRefusal(b, l), l.name)
  {
    PartitionRefused(suites, b.pending, b.active, b.results, l);
    TurnTaken(suites, b.pending);
    assert l in b.results + [l];
  }

  lemma BookedStays(b: Books, b': Books)
    requires AllBooked(b) && b'.past == b.past && b'.active == b.active && b'.results == b.results
    ensures AllBooked(b')
  {
    forall x | x in b'.past.begun
      ensures IsBooked(b', x.name)
    {
      assert IsBooked(b, x.name);
    }
  }

  lemma RefusalIsBrokenOff(env: Env, suites: seq<string>, b: Books, at: Instant)
    requires InOrder(env, suites, b, at) && b.pending != [] && env.start(b.pending[0]).RefusedThenRaised?
    ensures BrokenOff(env, suites, AfterRefusal(b, RefusalLine(b.pending[0])), at)
  {
    var l := RefusalLine(b.pending[0]);
    RefusalRaised(env, suites, b, l);
    RefusalStaysHonest(env, b, l);
    assert RaisedBy(env, suites, AfterRefusal(b, l), l.name);
  }

  lemma LossRaised(env: Env, suites: seq<string>, b: Books, x: string)
    requires Partition(suites, b.pending, b.active, b.results) && InTurn(suites, b.pending) && b.pending != []
    requires x == b.pending[0] && (env.start(x).RefusedUnwritten? || env.start(x).LogUnopened?)
    ensures RaisedBy(env, suites, b.(pending := b.pending[1..]), x)
  {
    PartitionLost(suites, b.pending, b.active, b.results);
    TurnTaken(suites, b.pending);
  }

  lemma LossIsBrokenOff(env: Env, suites: seq<string>, b: Books, at: Instant)
    requires InOrder(env, suites, b, at) && b.pending != []
    requires var s := env.start(b.pending[0]); s.RefusedUnwritten? || s.LogUnopened?
    ensures BrokenOff(env, suites, b.(pending := b.pending[1..]), at)
  {
    LossRaised(env, suites, b, b.pending[0]);
    BookedStays(b, b.(pending := b.pending[1..]));
    assert Honest(env, b.(pending := b.pending[1..]));
    assert RaisedBy(env, suites, b.(pending := b.pending[1..]), b.pending[0]);
  }

  /** What the head of the queue leads to. */
  lemma HeadEnds(env: Env, suites: seq<string>, b: Books, at: Instant)
    requires InOrder(env, suites, b, at) && b.pending != [] && |b.active| < env.jobs
    ensures var s, b' := env.start(b.pending[0]), AfterHead(env, b, at);
            && (s.Started? ==> InOrder(env, suites, b', Instant(at.sleeps, at.reading + 1)))
            && (s.Refused? ==> InOrder(env, suites, b', at))
            && (!s.Started? && !s.Refused? ==> BrokenOff(env, suites, b', at))
  {
    match env.start(b.pending[0])
    case Started =>
      StartKeepsOrder(env, suites, b, Starting(env, b.pending[0], At(env, at)), at);
    case Refused =>
      RefusalKeepsOrder(env, suites, b, at);
    case RefusedThenRaised =>
      RefusalIsBrokenOff(env, suites, b, at);
    case _ =>
      LossIsBrokenOff(env, suites, b, at);
  }

  // ----- a look at an active suite

  lemma LookIsLater(h: History, u: Look)
    requires Dated(h, u.at)
    ensures Later(h, WithLook(h, u)) && Dated(WithLook(h, u), u.at)
  {
    forall v | v in h.looks
      ensures v.at.reading <= u.at.reading && (v.at.reading < u.at.reading ==> Before(v.at, u.at))
    {
      assert NotAfter(v.at, u.at);
    }
  }

  /** A suite that is looked at: to be settled for the first time, or still awaited. */
  lemma LookFinds(env: Env, h: History, a: Active, at: Instant)
    requires Awaited(env, h, a) && Dated(h, at)
    ensures var h' := WithLook(h, Look(a.name, at));
            if Settles(env, a, at) then Ended(env, h', a.name, env.poll(at.reading, a.name)) else Awaited(env, h', a)
  {
    var b :| Awaits(env, h, a, b);
    var h' := WithLook(h, Look(a.name, at));
    assert Settles(env, a, at) <==> Due(env, b, at);
    if Settles(env, a, at) {
      assert Earlier(h'.looks, at.reading) <= h.looks;
      assert DueFirst(env, h', b, at);
    } else {
      assert Awaits(env, h', a, b);
    }
  }

  /** A suite that has exited or is overdue at a sweep is to be settled. */
  predicate Settles(env: Env, a: Active, at: Instant) {
    env.poll(at.reading, a.name).Some? || At(env, at) - a.started >= a.timeout
  }

  lemma OthersAwaited(env: Env, h: History, a: Active, u: Look)
    requires Awaited(env, h, a) && u.name != a.name
    ensures Awaited(env, WithLook(h, u), a)
  {
    var b :| Awaits(env, h, a, b);
    assert Awaits(env, WithLook(h, u), a, b);
  }

  lemma ActiveDistinct(suites: seq<string>, b: Books)
    requires Distinct(suites) && Partition(suites, b.pending, b.active, b.results)
    ensures Distinct(ActiveNames(b.active))
  {
    PartitionIs(suites, b.pending, b.active, b.results);
    DistinctWithin(ActiveNames(b.active), suites);
  }

  lemma RestAwaited(env: Env, b: Books, k: nat, at: Instant)
    requires k < |b.active| && AllAwaited(env, b.past, b.active) && Distinct(ActiveNames(b.active))
    ensures forall i :: 0 <= i < |b.active| && i != k ==> Awaited(env, Looked(b, k, at).past, b.active[i])
  {
    forall i | 0 <= i < |b.active| && i != k
      ensures Awaited(env, Looked(b, k, at).past, b.active[i])
    {
      assert ActiveNames(b.active)[i] != ActiveNames(b.active)[k];
      OthersAwaited(env, b.past, b.active[i], Look(b.active[k].name, at));
    }
  }

  /** The books while suite k is settled, which was found with rc. */
  ghost predicate Settled(env: Env, suites: seq<string>, b: Books, k: nat, rc: Option<int>, at: Instant) {
    && Distinct(suites) && Dated(b.past, at)
    && Partition(suites, b.pending, b.active, b.results) && InTurn(suites, b.pending) && |b.active| <= env.jobs
    && Honest(env, b) && AllBooked(b) && AllSmooth(env, LineNames(b.results)) && AllStopped(env, b.told)
    && k < |b.active| && env.start(b.active[k].name).Started? && Ended(env, b.past, b.active[k].name, rc)
    && forall i :: 0 <= i < |b.active| && i != k ==> Awaited(env, b.past, b.active[i])
  }

  lemma LookedBooked(b: Books, k: nat, at: Instant)
    requires k < |b.active| && AllBooked(b)
    ensures AllBooked(Looked(b, k, at))
  {
    forall x | x in b.past.begun
      ensures IsBooked(Looked(b, k, at), x.name)
    {
      assert IsBooked(b, x.name);
    }
  }

  lemma LookKeepsOrder(env: Env, suites: seq<string>, b: Books, k: nat, at: Instant)
    requires InOrder(env, suites, b, at) && k < |b.active|
    ensures if Settles(env, b.active[k], at)
            then Settled(env, suites, Looked(b, k, at), k, env.poll(at.reading, b.active[k].name), at)
            else InOrder(env, suites, Looked(b, k, at), at)
  {
    LookIsLater(b.past, Look(b.active[k].name, at));
    assert StartedOnce(Looked(b, k, at).past);
    LookGoesOn(env, b.past, b.active[k], Look(b.active[k].name, at));
    HonestLater(env, b, Looked(b, k, at).past);
    LookedBooked(b, k, at);
    ActiveDistinct(suites, b);
    RestAwaited(env, b, k, at);
    LookFinds(env, b.past, b.active[k], at);
  }

  lemma SettlingStaysHonest(env: Env, suites: seq<string>, b: Books, k: nat, rc: Option<int>, at: Instant)
    requires Settled(env, suites, b, k, rc, at)
    ensures Honest(env, Settling(b, k, rc.None?))
  {
  }

  /** The line of a suite says how it was found. */
  lemma EndLineTruthful(env: Env, h: History, a: Active, rc: Option<int>, at: int)
    requires env.start(a.name).Started? && Ended(env, h, a.name, rc)
    ensures Truthful(env, h, EndLine(env, a, rc, at))
  {
  }

  lemma SettlingIsBrokenOff(env: Env, suites: seq<string>, b: Books, k: nat, rc: Option<int>, at: Instant)
    requires Settled(env, suites, b, k, rc, at)
    requires var x := b.active[k].name; (rc.None? && env.kill(x).None?) || env.record(x).RecordUnwritten?
    ensures BrokenOff(env, suites, Settling(b, k, rc.None?), at)
  {
    var b', x := Settling(b, k, rc.None?), b.active[k].name;
    SettlingStaysHonest(env, suites, b, k, rc, at);
    BookedStays(b, b');
    assert ActiveNames(b.active)[k] == x;
    assert Ended(env, b'.past, x, rc);
    assert RaisedBy(env, suites, b', x);
  }

  lemma EndStaysHonest(env: Env, suites: seq<string>, b: Books, k: nat, rc: Option<int>, at: Instant, clock: int)
    requires Settled(env, suites, b, k, rc, at)
    ensures var b' := AfterEnd(b, k, rc.None?, EndLine(env, b.active[k], rc, clock));
            Honest(env, b') && Honest(env, b'.(active := b.active))
  {
    var before, x, after := b.active[..k], b.active[k], b.active[k + 1..];
    assert b.active == before + [x] + after;
    SettlingStaysHonest(env, suites, b, k, rc, at);
    EndLineTruthful(env, b.past, x, rc, clock);
    AttendedRest(Settling(b, k, rc.None?).unattended, before, x, after);
  }

  lemma EndStaysBooked(b: Books, k: nat, killed: bool, l: Line)
    requires k < |b.active| && l.name == b.active[k].name && AllBooked(b)
    ensures AllBooked(AfterEnd(b, k, killed, l))
  {
    var b' := AfterEnd(b, k, killed, l);
    LineNamesAppend(b.results, l);
    forall x | x in b.past.begun
      ensures IsBooked(b', x.name)
    {
      assert IsBooked(b, x.name);
      if x.name != l.name && x.name in ActiveNames(b.active) {
        var i: nat :| i < |b.active| && ActiveNames(b.active)[i] == x.name;
        assert ActiveNames(b'.active)[if i < k then i else i - 1] == x.name;
      }
    }
  }

  lemma BookedWithBoth(b: Books, k: nat, killed: bool, l: Line)
    requires k < |b.active| && AllBooked(b)
    ensures AllBooked(AfterEnd(b, k, killed, l).(active := b.active))
  {
    LineNamesAppend(b.results, l);
    forall x | x in b.past.begun
      ensures IsBooked(AfterEnd(b, k, killed, l).(active := b.active), x.name)
    {
      assert IsBooked(b, x.name);
    }
  }

  lemma EndRaisedAfter(env: Env, suites: seq<string>, b: Books, k: nat, rc: Option<int>, at: Instant, l: Line)
    requires Settled(env, suites, b, k, rc, at) && env.record(b.active[k].name).RecordThenRaised?
    requires l.name == b.active[k].name && (rc.None? ==> env.kill(l.name).Some?)
    ensures RaisedBy(env, suites, AfterEnd(b, k, rc.None?, l).(active := b.active), l.name)
  {
    var b' := AfterEnd(b, k, rc.None?, l).(active := b.active);
    PartitionIs(suites, b.pending, b.active, b.results);
    LineNamesAppend(b.results, l);
    assert ActiveNames(b.active)[k] == l.name;
    assert LineNames(b'.results)[|b.results|] == l.name;
    assert Ended(env, b'.past, l.name, rc);
  }

  lemma EndIsBrokenOff(env: Env, suites: seq<string>, b: Books, k: nat, rc: Option<int>, at: Instant, clock: int)
    requires Settled(env, suites, b, k, rc, at) && env.record(b.active[k].name).RecordThenRaised?
    requires rc.None? ==> env.kill(b.active[k].name).Some?
    ensures BrokenOff(env, suites, AfterEnd(b, k, rc.None?, EndLine(env, b.active[k], rc, clock)).(active := b.active),
                      at)
  {
    var l := EndLine(env, b.active[k], rc, clock);
    EndStaysHonest(env, suites, b, k, rc, at, clock);
    BookedWithBoth(b, k, rc.None?, l);
    EndRaisedAfter(env, suites, b, k, rc, at, l);
    assert RaisedBy(env, suites, AfterEnd(b, k, rc.None?, l).(active := b.active), l.name);
  }

  lemma EndKeepsOrder(env: Env, suites: seq<string>, b: Books, k: nat, rc: Option<int>, at: Instant, clock: int)
    requires Settled(env, suites, b, k, rc, at) && env.record(b.active[k].name).Recorded?
    requires rc.None? ==> env.kill(b.active[k].name).Some?
    ensures InOrder(env, suites, AfterEnd(b, k, rc.None?, EndLine(env, b.active[k], rc, clock)), at)
  {
    var before, x, after := b.active[..k], b.active[k], b.active[k + 1..];
    var l := EndLine(env, x, rc, clock);
    assert b.active == before + [x] + after;
    PartitionRecord(suites, b.pending, before, x, after, b.results, l);
    SmoothAppend(env, b.results, l);
    EndStaysHonest(env, suites, b, k, rc, at, clock);
    EndStaysBooked(b, k, rc.None?, l);
    assert AllAwaited(env, b.past, Without(b.active, k));
  }

  lemma SettlingKeepsOrder(env: Env, suites: seq<string>, b: Books, k: nat, rc: Option<int>, at: Instant, clock: int)
    requires Settled(env, suites, b, k, rc, at)
    ensures var a, b' := b.active[k], AfterSettling(env, b, k, rc, EndLine(env, b.active[k], rc, clock));
            if (rc.Some? || env.kill(a.name).Some?) && env.record(a.name).Recorded? then InOrder(env, suites, b', at)
            else BrokenOff(env, suites, b', at)
  {
    var x := b.active[k].name;
    if (rc.None? && env.kill(x).None?) || env.record(x).RecordUnwritten? {
      SettlingIsBrokenOff(env, suites, b, k, rc, at);
    } else if env.record(x).RecordThenRaised? {
      EndIsBrokenOff(env, suites, b, k, rc, at, clock);
    } else {
      EndKeepsOrder(env, suites, b, k, rc, at, clock);
    }
  }

  /** What a look at suite k leads to. */
  lemma LookEnds(env: Env, suites: seq<string>, b: Books, k: nat, at: Instant, clock: int)
    requires InOrder(env, suites, b, at) && k < |b.active|
    ensures var a, rc, b1 := b.active[k], env.poll(at.reading, b.active[k].name), Looked(b, k, at);
            var b2 := AfterSettling(env, b1, k, rc, EndLine(env, a, rc, clock));
            if !Settles(env, a, at) then InOrder(env, suites, b1, at)
            else if (rc.Some? || env.kill(a.name).Some?) && env.record(a.name).Recorded?
            then InOrder(env, suites, b2, at)
            else BrokenOff(env, suites, b2, at)
  {
    LookKeepsOrder(env, suites, b, k, at);
    if Settles(env, b.active[k], at) {
      SettlingKeepsOrder(env, suites, Looked(b, k, at), k, env.poll(at.reading, b.active[k].name), at, clock);
    }
  }

  lemma AttendedRest(unattended: set<string>, before: seq<Active>, a: Active, after: seq<Active>)
    requires Attended(unattended, before + [a] + after) && a.name !in unattended
    ensures Attended(unattended, before + after)
  {
    forall s | s in unattended
      ensures s in ActiveNames(before + after)
    {
      ActiveNamesMiddle(before, a, after);
      assert s in multiset(ActiveNames(before + [a] + after));
      assert s in multiset(ActiveNames(before + after));
    }
  }

  // A suite that was not overdue before a sleep has less left after it.
  lemma LessLeft(env: Env, a: Active, s: nat, r: nat, r': nat)
    requires Advancing(env) && r <= r' && env.clock(s, r') - a.started < a.timeout
    ensures env.clock(s, r) <= env.clock(s, r') < env.clock(s + 1, r')
  {
  }

  /** The first k suites are not overdue. */
  ghost predicate NotOverdue(active: seq<Active>, k: nat, now: int) {
    k <= |active| && forall i :: 0 <= i < k ==> now - active[i].started < active[i].timeout
  }

  /** The first n of a0 have been looked at: those among them that stay are the first k, and not overdue. */
  ghost predicate Passed(a0: seq<Active>, n: nat, active: seq<Active>, k: nat, now: int) {
    k <= |active| && n <= |a0| && active[k..] == a0[n..] && NotOverdue(active, k, now)
  }

  lemma PassedNext(a0: seq<Active>, n: nat, active: seq<Active>, k: nat, now: int)
    requires Passed(a0, n, active, k, now) && k < |active|
    ensures n < |a0| && active[k] == a0[n] && Passed(a0, n + 1, Without(active, k), k, now)
    ensures now - active[k].started < active[k].timeout ==> Passed(a0, n + 1, active, k + 1, now)
  {
    assert active[k..][1..] == a0[n..][1..];
    assert active[k..][0] == a0[n..][0];
    assert Without(active, k)[k..] == active[k + 1..];
  }

  function LeftAt(active: seq<Active>, now: int): nat {
    if active == [] then 0
    else
      var d := active[0].started + active[0].timeout - now;
      if d < 0 then 0 else d
  }

  /** The first n of some suites have been looked at. */
  function LookedAt(h: History, active: seq<Active>, n: nat, at: Instant): History
    requires n <= |active|
  {
    if n == 0 then h else WithLook(LookedAt(h, active, n - 1, at), Look(active[n - 1].name, at))
  }

  lemma {:induction false} LookedAtIs(h: History, active: seq<Active>, n: nat, at: Instant)
    requires n <= |active|
    ensures var h' := LookedAt(h, active, n, at);
            && h'.begun == h.begun
            && forall u :: u in h'.looks <==> u in h.looks || (u.at == at && u.name in ActiveNames(active[..n]))
  {
    if n > 0 {
      LookedAtIs(h, active, n - 1, at);
      assert active[..n] == active[..n - 1] + [active[n - 1]];
      ActiveNamesAppend(active[..n - 1], active[n - 1]);
    }
  }

  // ----- what the lines and the looks of a wave say, in terms of the environment alone

  /** A sweep looked at the suite b after its start. */
  predicate LookedSince(h: History, b: Began, at: Instant) {
    && b in h.begun && Look(b.name, at) in h.looks
    && b.at.sleeps <= at.sleeps && b.at.reading < at.reading
  }

  /** What the clock had advanced between a start and a look. */
  function Elapsed(env: Env, b: Began, at: Instant): int {
    env.clock(at.sleeps, at.reading) - env.clock(b.at.sleeps, b.at.reading)
  }

  /** A sweep found the suite running when its time was up: that of slow suites, or that of others. */
  ghost predicate FoundOverdue(env: Env, h: History, name: string) {
    exists b, at ::
      && LookedSince(h, b, at) && b.name == name && env.poll(at.reading, name).None?
      && if name in env.slow then Elapsed(env, b, at) >= env.slowTimeout else Elapsed(env, b, at) >= env.timeout
  }

  /** A sweep found that the suite had exited with a code. */
  ghost predicate FoundExited(env: Env, h: History, name: string, code: int) {
    exists b, at :: LookedSince(h, b, at) && b.name == name && env.poll(at.reading, name) == Some(code)
  }

  /**
    A line has code 98 and no counts for a suite that did not start. Else it has the counts of the log, if
    there are any, and the code that the suite exited with, but 97 for 0 without counts; or 124 for a suite
    found overdue.
   */
  ghost predicate LineTells(env: Env, h: History, l: Line) {
    if env.start(l.name).Started? then
      && (match env.summary(l.name)
          case Some(s) => l.passed == s.passed && l.failed == s.failed && l.skipped == s.skipped
          case None => l.passed == l.failed == l.skipped == 0)
      && ((l.rc == 124 && FoundOverdue(env, h, l.name)) ||
          exists code :: FoundExited(env, h, l.name, code) &&
                         l.rc == if code == 0 && env.summary(l.name).None? then 97 else code)
    else l == Line(l.name, 98, 0, 0, 0, 0)
  }

  /** Every look but the last one at a suite found it running, with time left. */
  ghost predicate LooksTell(env: Env, h: History) {
    forall b, u, v | b in h.begun && u in h.looks && v in h.looks && u.name == b.name == v.name &&
                     LookedSince(h, b, u.at) && u.at.reading < v.at.reading ::
      && env.poll(u.at.reading, b.name).None?
      && if b.name in env.slow then Elapsed(env, b, u.at) < env.slowTimeout else Elapsed(env, b, u.at) < env.timeout
  }

  lemma OverdueTells(env: Env, h: History, name: string)
    requires WasOverdue(env, h, name)
    ensures FoundOverdue(env, h, name)
  {
    var b, at :| DueFirst(env, h, b, at) && b.name == name && env.poll(at.reading, name) == None;
    assert LookedSince(h, b, at);
  }

  lemma TruthTells(env: Env, h: History, l: Line)
    requires Truthful(env, h, l)
    ensures LineTells(env, h, l)
  {
    if env.start(l.name).Started? {
      var rc :| Ended(env, h, l.name, rc) && l.rc == CodeOf(env, l.name, rc);
      if rc.None? {
        OverdueTells(env, h, l.name);
      } else {
        var b, at :| DueFirst(env, h, b, at) && b.name == l.name && env.poll(at.reading, l.name) == rc;
        assert LookedSince(h, b, at);
        assert FoundExited(env, h, l.name, rc.value);
      }
    }
  }

  lemma GoingOnTells(env: Env, h: History)
    requires AllGoOn(env, h)
    ensures LooksTell(env, h)
  {
    forall b, u, v | b in h.begun && u in h.looks && v in h.looks && u.name == b.name == v.name &&
                     LookedSince(h, b, u.at) && u.at.reading < v.at.reading
      ensures env.poll(u.at.reading, b.name).None?
      ensures if b.name in env.slow then Elapsed(env, b, u.at) < env.slowTimeout
              else Elapsed(env, b, u.at) < env.timeout
    {
      assert GoesOn(env, b, u, v);
    }
  }

  /** Every line tells how its suite was found, and who was told to stop was found overdue. */
  lemma HonestTells(env: Env, b: Books)
    requires Honest(env, b)
    ensures forall i :: 0 <= i < |b.results| ==> LineTells(env, b.past, b.results[i])
    ensures forall i :: 0 <= i < |b.told| ==> FoundOverdue(env, b.past, b.told[i])
    ensures LooksTell(env, b.past)
  {
    forall i | 0 <= i < |b.results|
      ensures LineTells(env, b.past, b.results[i])
    {
      assert Truthful(env, b.past, b.results[i]);
      TruthTells(env, b.past, b.results[i]);
    }
    forall i | 0 <= i < |b.told|
      ensures FoundOverdue(env, b.past, b.told[i])
    {
      assert WasOverdue(env, b.past, b.told[i]);
      OverdueTells(env, b.past, b.told[i]);
    }
    GoingOnTells(env, b.past);
  }

  lemma BookedTells(b: Books, x: Began)
    requires AllBooked(b) && x in b.past.begun
    ensures x.name in LineNames(b.results) || x.name in ActiveNames(b.active)
  {
    assert IsBooked(b, x.name);
  }

  /** With every suite on record, all of them have gone well. */
  lemma EndIsSmooth(env: Env, suites: seq<string>, b: Books, now: Instant)
    requires InOrder(env, suites, b, now) && b.pending == [] && b.active == []
    ensures AllSmooth(env, suites) && AllStopped(env, b.told) && Honest(env, b) && AllBooked(b) && Dated(b.past, now)
    ensures multiset(LineNames(b.results)) == multiset(suites) && NoneTwice(suites, b.results)
  {
    PartitionEnd(suites, b.results);
    forall s | s in suites
      ensures Smooth(env, s)
    {
      assert s in multiset(LineNames(b.results));
    }
  }

  function ToldAll(b: Books): Books {
    b.(unattended := {}, told := b.told + ActiveNames(b.active))
  }

  /** Books after a wave was broken off, when the suites still active have been told to stop. */
  lemma BrokenEnd(env: Env, suites: seq<string>, b: Books, now: Instant)
    requires BrokenOff(env, suites, b, now)
    ensures Honest(env, b) && AllBooked(b) && Dated(b.past, now) && exists x :: RaisedBy(env, suites, ToldAll(b), x)
    ensures NoneTwice(suites, b.results) && !(AllSmooth(env, suites) && AllStopped(env, ToldAll(b).told))
  {
    var b' := ToldAll(b);
    var x :| RaisedBy(env, suites, b, x);
    assert RaisedBy(env, suites, b', x);
    RaisedMeans(env, suites, b', x);
    assert forall s :: s in ActiveNames(b.active) ==> s in b'.told;
  }

  class Scheduler {
    const env: Env
    const suites: seq<string>
    var pending: seq<string>
    var active: seq<Active>
    var results: seq<Line>
    var readings: nat
    var sleeps: nat

    /** Suites whose process was started and has neither been seen to exit nor been told to stop. */
    ghost var unattended: set<string>

    /** The starts and the looks so far, and the suites told to stop, in order. */
    ghost var past: History
    ghost var told: seq<string>

    ghost function Log(): Books
      reads this
    {
      Books(pending, active, results, unattended, past, told)
    }

    /** The books are in order, and nothing in them is later than a reading of the clock. */
    ghost predicate Accounted(reading: nat)
      reads this
    {
      reading <= readings && InOrder(env, suites, Log(), Instant(sleeps, reading))
    }

    ghost predicate Broken()
      reads this
    {
      BrokenOff(env, suites, Log(), Now())
    }

    constructor (env: Env, suites: seq<string>)
      requires Distinct(suites)
      ensures Accounted(readings) && this.env == env && this.suites == suites
      ensures pending == suites && active == [] && results == [] && unattended == {}
      ensures past == History({}, {}) && told == []
    {
      this.env, this.suites, pending, active, results := env, suites, suites, [], [];
      readings, sleeps, unattended, past, told := 0, 0, {}, History({}, {}), [];
      new;
      assert ActiveNames([]) == [] && LineNames([]) == [];
    }

    function Now(): Instant
      reads this
    {
      Instant(sleeps, readings)
    }

    function Clock(): int
      reads this
    {
      env.clock(sleeps, readings)
    }

    /** What start_suite and record_start_failure leave in the books. */
    method StartHead() returns (ok: bool)
      requires pending != []
      modifies this
      ensures ok <==> env.start(old(pending)[0]).Started? || env.start(old(pending)[0]).Refused?
      ensures sleeps == old(sleeps)
      ensures readings == old(readings) + if env.start(old(pending)[0]).Started? then 1 else 0
      ensures Log() == AfterHead(env, old(Log()), old(Now()))
    {
      var suite := pending[0];
      var timeout := if suite in env.slow then env.slowTimeout else env.timeout;
      pending := pending[1..];
      match env.start(suite)
      case Started =>
        active := active + [Active(suite, Clock(), timeout)];
        unattended := unattended + {suite};
        past := past.(begun := past.begun + {Began(suite, Now())});
        readings := readings + 1;
        ok := true;
      case Refused =>
        results := results + [Line(suite, NOT_STARTED_RC, 0, 0, 0, 0)];
        ok := true;
      case RefusedThenRaised =>
        results := results + [Line(suite, NOT_STARTED_RC, 0, 0, 0, 0)];
        ok := false;
      case RefusedUnwritten =>
        ok := false;
      case LogUnopened =>
        ok := false;
    }

    /** The head of the queue: started now, or recorded as not started; the books stay in order. */
    method StartNext() returns (ok: bool)
      requires Accounted(readings) && pending != [] && |active| < env.jobs
      modifies this
      ensures ok <==> env.start(old(pending)[0]).Started? || env.start(old(pending)[0]).Refused?
      ensures if ok then Accounted(readings) else Broken()
      ensures |pending| == |old(pending)| - 1 && |active| <= |old(active)| + 1
      ensures Log() == AfterHead(env, old(Log()), old(Now()))
    {
      HeadEnds(env, suites, Log(), Now());
      ok := StartHead();
    }

    /** Starts suites while there is room. */
    method FillSlots() returns (ok: bool)
      requires Accounted(readings)
      modifies this
      ensures if ok then Accounted(readings) else Broken()
      ensures ok ==> pending == [] || |active| >= env.jobs
      ensures ok ==> Load() <= old(Load()) && |pending| <= |old(pending)|
      ensures ok && |pending| < |old(pending)| ==> Load() < old(Load())
      ensures ok && |pending| == |old(pending)| ==>
                active == old(active) && readings == old(readings) && sleeps == old(sleeps)
    {
      ok := true;
      while ok && pending != [] && |active| < env.jobs
        invariant if ok then Accounted(readings) else Broken()
        invariant |pending| <= |old(pending)|
        invariant ok ==> 2 * |pending| + |active| <= 2 * |old(pending)| + |old(active)| - (|old(pending)| - |pending|)
        invariant ok && |pending| == |old(pending)| ==>
                    active == old(active) && readings == old(readings) && sleeps == old(sleeps)
        decreases |pending|
      {
        ok := StartNext();
      }
    }

    /** record_result: the line of a suite that exited or was killed, unless raising comes before it. */
    method RecordResult(a: Active, rc: int, timedOut: bool) returns (ok: bool)
      modifies `results, `readings
      ensures readings == old(readings) + 1 && (ok <==> env.record(a.name) == Recorded)
      ensures results == if env.record(a.name) == RecordUnwritten then old(results)
                         else old(results) + [EndLine(env, a, if timedOut then None else Some(rc), Clock())]
      ensures env.record(a.name) != RecordUnwritten ==>
                var secs, ms := results[|results| - 1].secs, Clock() - a.started;
                if ms < 0 then secs == 0 else 1000 * secs <= ms < 1000 * (secs + 1)
    {
      readings := readings + 1;
      var elapsed := Clock() - a.started;
      var code := if timedOut then KILLED_RC else rc;
      var summary := env.summary(a.name);
      if code == 0 && summary.None? {
        code := EMPTY_RC;
      }
      var s := if summary.Some? then summary.value else Summary(0, 0, 0);
      if env.record(a.name) == RecordUnwritten {
        return false;
      }
      var secs := if elapsed < 0 then 0 else elapsed / 1000;
      results := results + [Line(a.name, code, s.passed, s.failed, s.skipped, secs)];
      ok := env.record(a.name) == Recorded;
    }

    /** What one turn of a sweep leaves in the books. */
    method SettleOne(k: nat, sweep: nat, now: int) returns (ok: bool, settled: bool)
      requires k < |active| && now == env.clock(sleeps, sweep)
      modifies `active, `results, `readings, `unattended, `past, `told
      ensures readings >= old(readings)
      ensures settled <==> Settles(env, old(active)[k], Instant(sleeps, sweep))
      ensures !settled ==> ok && Log() == Looked(old(Log()), k, Instant(sleeps, sweep)) && readings == old(readings)
      ensures settled ==> var a, rc := old(active)[k], env.poll(sweep, old(active)[k].name);
                          && (ok <==> (rc.Some? || env.kill(a.name).Some?) && env.record(a.name).Recorded?)
                          && Log() == AfterSettling(env, Looked(old(Log()), k, Instant(sleeps, sweep)), k, rc,
                                                    EndLine(env, a, rc, Clock()))
    {
      var a := active[k];
      var rc := env.poll(sweep, a.name);
      past := WithLook(past, Look(a.name, Instant(sleeps, sweep)));
      var timedOut := rc.None? && now - a.started >= a.timeout;
      if rc.None? && !timedOut {
        return true, false;
      }
      settled := true;
      unattended := unattended - {a.name};
      var code := if rc.Some? then rc.value else KILLED_RC;
      if timedOut {
        told := told + [a.name];
        var killed := env.kill(a.name);
        if killed.None? {
          return false, settled;
        }
        code := if killed.value.Some? then killed.value.value else KILLED_RC;
      }
      ok := RecordResult(a, code, timedOut);
      if ok {
        active := active[..k] + active[k + 1..];
      }
    }

    /** One active suite of a sweep: left alone, or brought to its end, told to stop only when overdue. */
    method Attend(k: nat, sweep: nat, now: int) returns (ok: bool, settled: bool)
      requires Accounted(sweep) && k < |active| && now == env.clock(sleeps, sweep)
      modifies `active, `results, `readings, `unattended, `past, `told
      ensures readings >= old(readings)
      ensures past == WithLook(old(past), Look(old(active)[k].name, Instant(sleeps, sweep)))
      ensures settled <==> Settles(env, old(active)[k], Instant(sleeps, sweep))
      ensures !settled ==> ok && Log() == Looked(old(Log()), k, Instant(sleeps, sweep)) && readings == old(readings)
      ensures settled ==> var a, rc := old(active)[k], env.poll(sweep, old(active)[k].name);
                          && (ok <==> (rc.Some? || env.kill(a.name).Some?) && env.record(a.name).Recorded?)
                          && Log() == AfterSettling(env, Looked(old(Log()), k, Instant(sleeps, sweep)), k, rc,
                                                    EndLine(env, a, rc, Clock()))
      ensures if ok then Accounted(sweep) else Broken()
      ensures ok ==> active == if settled then Without(old(active), k) else old(active)
    {
      ghost var log, at := Log(), Instant(sleeps, sweep);
      ok, settled := SettleOne(k, sweep, now);
      LookEnds(env, suites, log, k, at, Clock());
      StillStands(env, suites, Log(), at, Now());
    }

    /** Where a sweep of the suites a0 stands, with n of them looked at. */
    ghost predicate Swept(a0: seq<Active>, h0: History, sweep: nat, k: nat, n: nat, progress: bool)
      reads this
    {
      && Passed(a0, n, active, k, env.clock(sleeps, sweep))
      && past == LookedAt(h0, a0, n, Instant(sleeps, sweep))
      && if progress then |active| < |a0| else readings == sweep && active == a0
    }

    /** The next suite of a sweep; a settled one leaves its place to the one behind it. */
    method SweepNext(k: nat, sweep: nat, now: int, progress: bool, ghost a0: seq<Active>, ghost h0: History,
                     ghost n: nat)
      returns (ok: bool, progress': bool, k': nat)
      requires Accounted(sweep) && k < |active| && now == env.clock(sleeps, sweep)
      requires Swept(a0, h0, sweep, k, n, progress)
      modifies `active, `results, `readings, `unattended, `past, `told
      ensures if ok then Accounted(sweep) && n < |a0| && Swept(a0, h0, sweep, k', n + 1, progress') else Broken()
    {
      var settled;
      PassedNext(a0, n, active, k, now);
      ok, settled := Attend(k, sweep, now);
      progress', k' := progress || settled, if settled then k else k + 1;
    }

    /** A reading of the clock. */
    method ReadClock() returns (now: int)
      requires Accounted(readings)
      modifies `readings
      ensures Accounted(readings) && readings == old(readings) + 1 && now == Clock()
    {
      StillStands(env, suites, Log(), Now(), Instant(sleeps, readings + 1));
      readings := readings + 1;
      now := Clock();
    }

    lemma AccountedNow(reading: nat)
      requires Accounted(reading)
      ensures Accounted(readings)
    {
      StillStands(env, suites, Log(), Instant(sleeps, reading), Now());
    }

    /** One pass over the suites active at its start: it looks at each of them. */
    method Sweep() returns (ok: bool, progress: bool)
      requires Accounted(readings)
      modifies `active, `results, `readings, `unattended, `past, `told
      ensures if ok then Accounted(readings) && readings > old(readings) else Broken()
      ensures ok ==> past == LookedAt(old(past), old(active), |old(active)|, Instant(sleeps, old(readings) + 1))
      ensures ok && progress ==> |active| < |old(active)|
      ensures ok && !progress ==> active == old(active) && NotOverdue(active, |active|, Clock())
    {
      ok, progress := true, false;
      ghost var a0, h0 := active, past;
      var now := ReadClock();
      var sweep, k: nat := readings, 0;
      ghost var n := 0;
      while ok && k < |active|
        invariant if ok then Accounted(sweep) && Swept(a0, h0, sweep, k, n, progress) else Broken()
        decreases ok, |a0| - n
      {
        ok, progress, k := SweepNext(k, sweep, now, progress, a0, h0, n);
        n := n + 1;
      }
      if ok {
        assert n == |a0|;
        AccountedNow(sweep);
      }
    }

    /** The part that runs whatever happened: every suite still active is told to stop. */
    method StopAll() returns (clean: bool)
      requires Attended(unattended, active)
      modifies `unattended, `told
      ensures unattended == {} && told == old(told) + ActiveNames(active)
      ensures clean <==> forall i :: 0 <= i < |active| ==> env.kill(active[i].name).Some?
    {
      clean := true;
      for i := 0 to |active|
        invariant forall s :: s in unattended ==> exists j :: i <= j < |active| && active[j].name == s
        invariant told == old(told) + ActiveNames(active)[..i]
        invariant clean <==> forall j :: 0 <= j < i ==> env.kill(active[j].name).Some?
      {
        unattended := unattended - {active[i].name};
        told := told + [active[i].name];
        if env.kill(active[i].name).None? {
          clean := false;
        }
      }
    }

    /** What the oldest active suite has left before it is overdue. */
    ghost function Left(): nat
      reads this
    {
      LeftAt(active, Clock())
    }

    /** The measure that falls at each start, refusal or end. */
    ghost function Load(): nat
      reads this
    {
      2 * |pending| + |active|
    }

    /** The sleep at the end of a sweep that settled nothing: the oldest suite has less left. */
    method Sleep(ghost r0: nat)
      requires Accounted(readings) && active != [] && Advancing(env) && r0 <= readings
      requires NotOverdue(active, |active|, Clock())
      modifies `sleeps
      ensures Accounted(readings) && sleeps == old(sleeps) + 1
      ensures Left() < LeftAt(active, env.clock(old(sleeps), r0))
    {
      LessLeft(env, active[0], sleeps, r0, readings);
      StillStands(env, suites, Log(), Now(), Instant(sleeps + 1, readings));
      sleeps := sleeps + 1;
    }

    /** One turn of the wave: fill the slots, sweep, and sleep when the sweep settled nothing. */
    method Turn() returns (ok: bool)
      requires Accounted(readings) && (pending != [] || active != []) && Advancing(env) && env.jobs >= 1
      modifies this
      ensures if ok then Accounted(readings) else Broken()
      ensures ok ==> Load() < old(Load()) || (Load() == old(Load()) && Left() < old(Left()))
    {
      ok := FillSlots();
      if ok {
        ghost var r0 := readings;
        var progress;
        ok, progress := Sweep();
        if ok && active != [] && !progress {
          Sleep(r0);
        }
      }
    }

    /** The end of a wave that is through, or was broken off. */
    method Finish(through: bool) returns (ok: bool)
      requires if through then Accounted(readings) && pending == [] && active == [] else Broken()
      modifies `unattended, `told
      ensures ok == through && (ok <==> AllSmooth(env, suites) && AllStopped(env, told))
      ensures ok ==> multiset(LineNames(results)) == multiset(suites)
      ensures !ok ==> exists x :: RaisedBy(env, suites, Log(), x)
      ensures NoneTwice(suites, results) && StartedOnce(past) && unattended == {} && LooksTell(env, past)
      ensures AllTruthful(env, past, results) && forall i :: 0 <= i < |results| ==> LineTells(env, past, results[i])
      ensures forall i :: 0 <= i < |old(told)| ==> FoundOverdue(env, past, old(told)[i])
      ensures forall b :: b in past.begun ==> b.name in LineNames(results) || b.name in ActiveNames(active)
      ensures told == old(told) + ActiveNames(active) && Dated(past, Now())
    {
      ghost var log := Log();
      if through {
        EndIsSmooth(env, suites, log, Now());
      } else {
        BrokenEnd(env, suites, log, Now());
      }
      HonestTells(env, log);
      forall b | b in past.begun
        ensures b.name in LineNames(results) || b.name in ActiveNames(active)
      {
        BookedTells(log, b);
      }
      var clean := StopAll();
      assert Log() == ToldAll(log);
      ok := through && clean;
    }

    /**
      run_wave: ends in every environment whose clock advances. It ends normally exactly when every suite
      starts or is refused and is recorded, and every one told to stop stops; then there is one line for
      every suite. At any end there is at most one, and each says how the suite was found by the first
      look that found it exited or overdue; otherwise the suite that raised accounts for the books. No
      process is left unattended, and besides the suites active at the end only overdue ones were told to
      stop.
     */
    method Run() returns (ok: bool)
      requires Accounted(readings) && pending == suites && Advancing(env) && env.jobs >= 1
      modifies this
      ensures ok <==> AllSmooth(env, suites) && AllStopped(env, told)
      ensures ok ==> multiset(LineNames(results)) == multiset(suites) && pending == [] && active == []
      ensures !ok ==> exists x :: RaisedBy(env, suites, Log(), x)
      ensures NoneTwice(suites, results) && StartedOnce(past) && unattended == {} && LooksTell(env, past)
      ensures AllTruthful(env, past, results) && forall i :: 0 <= i < |results| ==> LineTells(env, past, results[i])
      ensures forall b :: b in past.begun ==> b.name in LineNames(results) || b.name in ActiveNames(active)
      ensures exists before :: told == before + ActiveNames(active) &&
                               forall i :: 0 <= i < |before| ==> FoundOverdue(env, past, before[i])
      ensures Dated(past, Now())
    {
      ok := true;
      while ok && (pending != [] || active != [])
        invariant if ok then Accounted(readings) else Broken()
        decreases ok, Load(), Left()
      {
        ok := Turn();
      }
      ok := Finish(ok);
    }
  }
}
