/** The build record of `internal/models/build.go`: its status enum, the
    predicates over it, its duration, and the GORM hooks that stamp
    identifiers and times. The clock and the UUID generator are
    parameters. */
module BuildModel {
  import opened Wrappers
  import opened Json
  import Numbers

  /** A UUID in its canonical text form. */
  type Uuid = string

  const NilUuid: Uuid := "00000000-0000-0000-0000-000000000000"

  /** Nanoseconds on the wall clock. */
  type Time = int

  datatype BuildStatus = Pending | Running | Completed | Failed | Cancelled

  /** The text stored in the `status` column. */
  function StatusName(s: BuildStatus): string {
    match s
    case Pending => "pending"
    case Running => "running"
    case Completed => "completed"
    case Failed => "failed"
    case Cancelled => "cancelled"
  }

  datatype Build = Build(
    id: Uuid,
    userId: Uuid,
    projectId: Uuid,
    sessionId: Option<Uuid>,
    command: string,
    workingDir: string,
    status: BuildStatus,
    output: string,
    error: Option<string>,
    exitCode: Option<int>,
    processId: Option<int>,
    startedAt: Option<Time>,
    completedAt: Option<Time>,
    metadata: map<string, Json>,
    createdAt: Time,
    updatedAt: Time)

  predicate IsRunning(b: Build) {
    b.status == Running
  }

  predicate IsCompleted(b: Build) {
    b.status == Completed || b.status == Failed || b.status == Cancelled
  }

  /** Exactly the three terminal states are completed; a running build is
      never completed. */
  lemma CompletedIffTerminal(b: Build)
    ensures IsCompleted(b) <==> b.status !in {Pending, Running}
    ensures IsRunning(b) ==> !IsCompleted(b)
    ensures !IsRunning(b) && !IsCompleted(b) <==> b.status == Pending
  {
  }

  /** Distinct statuses are stored as distinct texts. */
  lemma StatusNamesDistinct(s: BuildStatus, t: BuildStatus)
    ensures StatusName(s) == StatusName(t) <==> s == t
  {
  }

  /** `time.Time.Sub`: the difference, saturated to the range of
      `time.Duration`. */
  function Sub(t: Time, u: Time): (d: int)
    ensures Numbers.MinInt <= d <= Numbers.MaxInt
    ensures Numbers.MinInt <= t - u <= Numbers.MaxInt ==> d == t - u
  {
    if t - u > Numbers.MaxInt then Numbers.MaxInt
    else if t - u < Numbers.MinInt then Numbers.MinInt
    else t - u
  }

  /** `Duration`: nothing before the build started; afterwards from the
      start to the completion time, or to `now` while not completed. */
  function Duration(b: Build, now: Time): (r: Option<int>)
    ensures r.None? <==> b.startedAt.None?
  {
    if b.startedAt.None? then None
    else Some(Sub(b.completedAt.GetOr(now), b.startedAt.value))
  }

  /** Once completed, the duration no longer depends on the clock; before,
      it never decreases as the clock advances. */
  lemma DurationClock(b: Build, now1: Time, now2: Time)
    requires b.startedAt.Some? && now1 <= now2
    ensures b.completedAt.Some? ==> Duration(b, now1) == Duration(b, now2)
    ensures b.completedAt.None? ==> Duration(b, now1).value <= Duration(b, now2).value
  {
  }

  /** The identifier rule every `BeforeCreate` hook of the models
      follows: a nil ID is replaced by a freshly generated one, any other
      is kept. */
  function AssignId(id: Uuid, newId: Uuid): (r: Uuid)
    ensures id != NilUuid ==> r == id
    ensures id == NilUuid ==> r == newId
    ensures newId != NilUuid ==> r != NilUuid
  {
    if id == NilUuid then newId else id
  }

  /** Once assigned, an ID survives every later save: a second hook run
      keeps it whatever ID it generates. */
  lemma AssignIdStable(id: Uuid, n1: Uuid, n2: Uuid)
    requires n1 != NilUuid
    ensures AssignId(AssignId(id, n1), n2) == AssignId(id, n1)
  {
  }

  /** `Build.BeforeCreate`: the ID rule, both times stamped with the
      insertion time, nothing else touched. */
  function BeforeCreate(b: Build, newId: Uuid, now: Time): (r: Build)
    ensures r.id == AssignId(b.id, newId)
    ensures r.createdAt == now && r.updatedAt == r.createdAt
    ensures r.(id := b.id, createdAt := b.createdAt, updatedAt := b.updatedAt) == b
  {
    b.(id := AssignId(b.id, newId), createdAt := now, updatedAt := now)
  }

  /** `Build.BeforeUpdate`: only `UpdatedAt` changes. */
  function BeforeUpdate(b: Build, now: Time): (r: Build)
    ensures r.updatedAt == now
    ensures r.(updatedAt := b.updatedAt) == b
  {
    b.(updatedAt := now)
  }

  /** A row created and later updated keeps its ID and creation time, and
      under a clock that does not run backwards was updated no earlier
      than it was created. */
  lemma CreatedThenUpdated(b: Build, newId: Uuid, created: Time, updated: Time)
    requires newId != NilUuid && created <= updated
    ensures var c := BeforeCreate(b, newId, created);
            var u := BeforeUpdate(c, updated);
            u.id == c.id && u.id != NilUuid && u.createdAt == created && u.createdAt <= u.updatedAt &&
            BeforeCreate(u, newId, updated).id == c.id
  {
  }

  datatype BuildLog = BuildLog(
    id: Uuid,
    buildId: Uuid,
    level: string,
    message: string,
    timestamp: Time,
    metadata: map<string, Json>)

  /** `BuildLog.BeforeCreate`: the ID rule, and the timestamp is the
      insertion time, never the caller's. */
  function LogBeforeCreate(l: BuildLog, newId: Uuid, now: Time): (r: BuildLog)
    ensures r.id == AssignId(l.id, newId)
    ensures r.timestamp == now
    ensures r.(id := l.id, timestamp := l.timestamp) == l
  {
    l.(id := AssignId(l.id, newId), timestamp := now)
  }

  /** Inserting `logs` one by one, the `i`-th at clock reading
      `clock[i]` with generated id `ids[i]`: each keeps its build, level,
      message and metadata, and carries the clock reading of its own
      insertion. */
  function InsertLogs(logs: seq<BuildLog>, ids: seq<Uuid>, clock: seq<Time>): (r: seq<BuildLog>)
    requires |ids| == |logs| && |clock| == |logs|
    ensures |r| == |logs|
    ensures forall i :: 0 <= i < |r| ==>
              r[i].timestamp == clock[i] && r[i].buildId == logs[i].buildId && r[i].level == logs[i].level &&
              r[i].message == logs[i].message && r[i].metadata == logs[i].metadata
  {
    seq(|logs|, i requires 0 <= i < |logs| => LogBeforeCreate(logs[i], ids[i], clock[i]))
  }

  predicate NonDecreasing(clock: seq<Time>) {
    forall i, j :: 0 <= i <= j < |clock| ==> clock[i] <= clock[j]
  }

  /** Under a clock that does not run backwards, ordering stored logs by
      timestamp keeps insertion order, whatever timestamps the callers
      supplied. */
  lemma InsertedLogsOrdered(logs: seq<BuildLog>, ids: seq<Uuid>, clock: seq<Time>)
    requires |ids| == |logs| && |clock| == |logs| && NonDecreasing(clock)
    ensures var r := InsertLogs(logs, ids, clock);
            forall i, j :: 0 <= i <= j < |r| ==> r[i].timestamp <= r[j].timestamp
  {
  }
}
