/** The education programme's tables: course progress, challenge enrolments, badges, quiz scores, and the
    leaderboard rows derived from them. */
module EducationStore {
  import opened Numbers

  datatype Progress = Progress(currentStep: int, totalSteps: int, completed: bool)

  datatype Status = Active | Completed

  datatype Enrollment = Enrollment(user: string, challenge: string, status: Status, current: real, target: real,
                                   pct: real)

  datatype Badge = Badge(user: string, name: string)

  datatype Quiz = Quiz(user: string, score: real)

  datatype BoardRow = BoardRow(badgeCount: nat, challengeCompleted: nat, quizAvg: real, totalPoints: int)

  datatype Challenge = Challenge(targetValue: real, badgeName: string)

  /** The static course and challenge definitions. */
  datatype Content = Content(courses: map<string, int>, challenges: map<string, Challenge>)

  datatype Store = Store(users: set<string>, progress: map<(string, string), Progress>,
                         enrollments: seq<Enrollment>, badges: seq<Badge>, quizzes: seq<Quiz>,
                         board: map<string, BoardRow>)

  /** The errors a step can raise; the transaction is then rolled back. */
  datatype Result = Done | UnknownCourse | UnknownChallenge | NoActiveChallenge | MultipleRows | ForeignKey

  const EMPTY: Store := Store({}, map[], [], [], [], map[])

  // ---- Queries --------------------------------------------------------------------------------------------

  function BadgeCount(badges: seq<Badge>, user: string): nat {
    if badges == [] then 0
    else BadgeCount(badges[..|badges| - 1], user) + if badges[|badges| - 1].user == user then 1 else 0
  }

  predicate IsCompletedBy(e: Enrollment, user: string) { e.user == user && e.status == Completed }

  function CompletedCount(es: seq<Enrollment>, user: string): nat {
    if es == [] then 0
    else CompletedCount(es[..|es| - 1], user) + if IsCompletedBy(es[|es| - 1], user) then 1 else 0
  }

  function ScoreCount(quizzes: seq<Quiz>, user: string): nat {
    if quizzes == [] then 0
    else ScoreCount(quizzes[..|quizzes| - 1], user) + if quizzes[|quizzes| - 1].user == user then 1 else 0
  }

  function ScoreSum(quizzes: seq<Quiz>, user: string): real {
    if quizzes == [] then 0.0
    else ScoreSum(quizzes[..|quizzes| - 1], user)
         + if quizzes[|quizzes| - 1].user == user then quizzes[|quizzes| - 1].score else 0.0
  }

  /** AVG(score), or 0 for a user without scores. */
  function QuizAvg(quizzes: seq<Quiz>, user: string): real {
    if ScoreCount(quizzes, user) == 0 then 0.0
    else ScoreSum(quizzes, user) / ScoreCount(quizzes, user) as real
  }

  function Points(badgeCount: nat, challengeCompleted: nat, quizAvg: real): int {
    badgeCount * 50 + challengeCompleted * 100 + Truncate(quizAvg * 10.0)
  }

  predicate IsActive(e: Enrollment, user: string, challenge: string) {
    e.user == user && e.challenge == challenge && e.status == Active
  }

  /** The positions of the active enrolments of a user in a challenge. */
  function ActiveRows(es: seq<Enrollment>, user: string, challenge: string): (rows: seq<nat>)
    ensures forall k :: 0 <= k < |rows| ==> rows[k] < |es| && IsActive(es[rows[k]], user, challenge)
    ensures forall i, j :: 0 <= i < j < |rows| ==> rows[i] < rows[j]
    ensures forall i :: 0 <= i < |es| && IsActive(es[i], user, challenge) ==> i in rows
  {
    if es == [] then []
    else var n := |es| - 1;
      var front := ActiveRows(es[..n], user, challenge);
      assert forall i :: 0 <= i < n ==> es[..n][i] == es[i];
      if IsActive(es[n], user, challenge) then front + [n] else front
  }

  predicate HasBadge(badges: seq<Badge>, user: string, name: string) { Badge(user, name) in badges }

  function CourseBadge(course: string): string { "코스완료_" + course }

  function ChallengeBadge(content: Content, challenge: string): string {
    if challenge in content.challenges then content.challenges[challenge].badgeName
    else "챌린지완료_" + challenge
  }

  // ---- The steps as functions -----------------------------------------------------------------------------

  function FreshRow(s: Store, user: string): BoardRow {
    var b, c, q := BadgeCount(s.badges, user), CompletedCount(s.enrollments, user), QuizAvg(s.quizzes, user);
    BoardRow(b, c, q, Points(b, c, q))
  }

  function UpdateLeaderboard(s: Store, user: string): Store {
    s.(board := s.board[user := FreshRow(s, user)])
  }

  function AwardBadge(s: Store, user: string, name: string): Store {
    if HasBadge(s.badges, user, name) then s
    else UpdateLeaderboard(s.(badges := s.badges + [Badge(user, name)]), user)
  }

  function AdvanceCourse(content: Content, s: Store, user: string, course: string): (Store, Result) {
    if course !in content.courses then (s, UnknownCourse)
    else if (user, course) !in s.progress then
      if user !in s.users then (s, ForeignKey)
      else (s.(progress := s.progress[(user, course) := Progress(1, content.courses[course], false)]), Done)
    else
      var row := s.progress[(user, course)];
      if row.completed then (s, Done)
      else
        var next := if row.currentStep + 1 <= row.totalSteps then row.currentStep + 1 else row.totalSteps;
        var row' := row.(currentStep := next, completed := next == row.totalSteps);
        var s' := s.(progress := s.progress[(user, course) := row']);
        (if row'.completed then AwardBadge(s', user, CourseBadge(course)) else s', Done)
  }

  function EnrollChallenge(content: Content, s: Store, user: string, challenge: string): (Store, Result) {
    if challenge !in content.challenges then (s, UnknownChallenge)
    else
      var s' := s.(users := s.users + {user});
      var active := ActiveRows(s.enrollments, user, challenge);
      if |active| > 1 then (s, MultipleRows)
      else if |active| == 1 then (s', Done)
      else
        var row := Enrollment(user, challenge, Active, 0.0, content.challenges[challenge].targetValue, 0.0);
        (s'.(enrollments := s.enrollments + [row]), Done)
  }

  function ProgressPct(value: real, target: real): real {
    if target > 0.0 then Min(value / target * 100.0, 100.0) else 0.0
  }

  /** Record a value for enrolment i; at 100 percent the challenge is completed and its badge awarded. */
  function ApplyValue(content: Content, s: Store, i: nat, value: real): Store
    requires i < |s.enrollments|
  {
    var e := s.enrollments[i];
    var pct := ProgressPct(value, e.target);
    var e' := e.(current := value, pct := pct, status := if pct >= 100.0 then Completed else e.status);
    var s' := s.(enrollments := s.enrollments[i := e']);
    if pct >= 100.0 then AwardBadge(s', e.user, ChallengeBadge(content, e.challenge)) else s'
  }

  function UpdateProgress(content: Content, s: Store, user: string, challenge: string, value: real): (Store, Result) {
    var active := ActiveRows(s.enrollments, user, challenge);
    if active == [] then (s, NoActiveChallenge)
    else if |active| > 1 then (s, MultipleRows)
    else (ApplyValue(content, s, active[0], value), Done)
  }

  datatype Metric = Unavailable | Value(value: real)

  /** Apply the computed metric, where there is one, to the user's active enrolments from position i on. */
  function SyncFrom(content: Content, s: Store, user: string, metric: Enrollment -> Metric, i: nat): (r: Store)
    requires i <= |s.enrollments|
    ensures |r.enrollments| == |s.enrollments|
    decreases |s.enrollments| - i
  {
    if i == |s.enrollments| then s
    else SyncFrom(content, SyncOne(content, s, user, metric, i), user, metric, i + 1)
  }

  predicate Synced(content: Content, e: Enrollment, user: string, metric: Enrollment -> Metric) {
    e.user == user && e.status == Active && e.challenge in content.challenges && metric(e).Value?
  }

  function SyncOne(content: Content, s: Store, user: string, metric: Enrollment -> Metric, i: nat): (r: Store)
    requires i < |s.enrollments|
    ensures |r.enrollments| == |s.enrollments|
  {
    var e := s.enrollments[i];
    if Synced(content, e, user, metric) then ApplyValue(content, s, i, metric(e).value) else s
  }

  function SaveQuiz(s: Store, user: string, score: real): (Store, Result) {
    if user !in s.users then (s, ForeignKey)
    else (UpdateLeaderboard(s.(quizzes := s.quizzes + [Quiz(user, score)]), user), Done)
  }

  // ---- The store ------------------------------------------------------------------------------------------

  class EducationDb {
    const content: Content
    var users: set<string>
    var progress: map<(string, string), Progress>
    var enrollments: seq<Enrollment>
    var badges: seq<Badge>
    var quizzes: seq<Quiz>
    var board: map<string, BoardRow>

    function Contents(): Store
      reads this
    {
      Store(users, progress, enrollments, badges, quizzes, board)
    }

    constructor (content: Content)
      ensures this.content == content && Contents() == EMPTY
    {
      this.content := content;
      users, progress, enrollments, badges, quizzes, board := {}, map[], [], [], [], map[];
    }

    method RefreshBoard(user: string)
      modifies this`board
      ensures Contents() == UpdateLeaderboard(old(Contents()), user)
    {
      var badgeCount := BadgeCount(badges, user);
      var completed := CompletedCount(enrollments, user);
      var quizAvg := QuizAvg(quizzes, user);
      var total := badgeCount * 50 + completed * 100 + Truncate(quizAvg * 10.0);
      board := board[user := BoardRow(badgeCount, completed, quizAvg, total)];
    }

    method Award(user: string, name: string)
      modifies this`badges, this`board
      ensures Contents() == AwardBadge(old(Contents()), user, name)
    {
      if Badge(user, name) in badges {
        return;
      }
      badges := badges + [Badge(user, name)];
      RefreshBoard(user);
    }

    method AdvanceCourseStep(user: string, course: string) returns (r: Result)
      modifies this
      ensures (Contents(), r) == AdvanceCourse(content, old(Contents()), user, course)
    {
      if course !in content.courses { return UnknownCourse; }
      if (user, course) !in progress {
        if user !in users { return ForeignKey; }
        progress := progress[(user, course) := Progress(1, content.courses[course], false)];
        return Done;
      }
      var row := progress[(user, course)];
      if !row.completed {
        var next := row.currentStep + 1;
        if next > row.totalSteps { next := row.totalSteps; }
        progress := progress[(user, course) := row.(currentStep := next, completed := next == row.totalSteps)];
        if next == row.totalSteps {
          Award(user, CourseBadge(course));
        }
      }
      return Done;
    }

    method Enroll(user: string, challenge: string) returns (r: Result)
      modifies this
      ensures (Contents(), r) == EnrollChallenge(content, old(Contents()), user, challenge)
    {
      if challenge !in content.challenges { return UnknownChallenge; }
      var active := ActiveRows(enrollments, user, challenge);
      if |active| > 1 { return MultipleRows; }
      users := users + {user};
      if |active| == 0 {
        var target := content.challenges[challenge].targetValue;
        enrollments := enrollments + [Enrollment(user, challenge, Active, 0.0, target, 0.0)];
      }
      return Done;
    }

    method SetValue(i: nat, value: real)
      requires i < |enrollments|
      modifies this
      ensures Contents() == ApplyValue(content, old(Contents()), i, value)
    {
      var e := enrollments[i];
      e := e.(current := value, pct := if e.target > 0.0 then Min(value / e.target * 100.0, 100.0) else 0.0);
      if e.pct >= 100.0 {
        e := e.(status := Completed);
      }
      enrollments := enrollments[i := e];
      if e.pct >= 100.0 {
        Award(e.user, ChallengeBadge(content, e.challenge));
      }
    }

    method UpdateChallengeProgress(user: string, challenge: string, value: real) returns (r: Result)
      modifies this
      ensures (Contents(), r) == UpdateProgress(content, old(Contents()), user, challenge, value)
    {
      var active := ActiveRows(enrollments, user, challenge);
      if active == [] { return NoActiveChallenge; }
      if |active| > 1 { return MultipleRows; }
      SetValue(active[0], value);
      return Done;
    }

    method SyncChallengeProgress(user: string, metric: Enrollment -> Metric)
      modifies this
      ensures Contents() == SyncFrom(content, old(Contents()), user, metric, 0)
    {
      var n := |enrollments|;
      for i := 0 to n
        invariant |enrollments| == n
        invariant SyncFrom(content, Contents(), user, metric, i) == SyncFrom(content, old(Contents()), user, metric, 0)
      {
        var e := enrollments[i];
        if e.user == user && e.status == Active && e.challenge in content.challenges {
          var value := metric(e);
          if value.Value? {
            SetValue(i, value.value);
          }
        }
      }
    }

    method SaveQuizScore(user: string, score: real) returns (r: Result)
      modifies this
      ensures (Contents(), r) == SaveQuiz(old(Contents()), user, score)
    {
      if user !in users { return ForeignKey; }
      quizzes := quizzes + [Quiz(user, score)];
      RefreshBoard(user);
      return Done;
    }
  }

  // ---- What every step keeps ------------------------------------------------------------------------------

  /** The leaderboard row of a user against the tables.  Only the completed-challenge count may lag behind. */
  ghost predicate BoardAgrees(s: Store, user: string) {
    if user in s.board then
      var row := s.board[user];
      && row.badgeCount == BadgeCount(s.badges, user)
      && row.quizAvg == QuizAvg(s.quizzes, user)
      && row.challengeCompleted <= CompletedCount(s.enrollments, user)
      && row.totalPoints == row.badgeCount * 50 + row.challengeCompleted * 100 + Truncate(row.quizAvg * 10.0)
    else BadgeCount(s.badges, user) == 0 && ScoreCount(s.quizzes, user) == 0
  }

  ghost predicate UniqueBadges(badges: seq<Badge>) {
    forall i, j :: 0 <= i < j < |badges| ==> badges[i] != badges[j]
  }

  ghost predicate OneActive(es: seq<Enrollment>) {
    forall i, j :: 0 <= i < j < |es| && es[i].status == Active && es[j].status == Active
      ==> es[i].user != es[j].user || es[i].challenge != es[j].challenge
  }

  /** Whatever has been completed has earned its badge. */
  ghost predicate Rewarded(content: Content, s: Store) {
    && (forall k :: k in s.progress && s.progress[k].completed ==> HasBadge(s.badges, k.0, CourseBadge(k.1)))
    && (forall i :: 0 <= i < |s.enrollments| && s.enrollments[i].status == Completed ==>
          HasBadge(s.badges, s.enrollments[i].user, ChallengeBadge(content, s.enrollments[i].challenge)))
  }

  ghost predicate Consistent(content: Content, s: Store) {
    && (forall user :: BoardAgrees(s, user))
    && UniqueBadges(s.badges) && OneActive(s.enrollments) && Rewarded(content, s)
  }

  lemma AwardKeeps(content: Content, s: Store, user: string, name: string)
    requires (forall u :: BoardAgrees(s, u)) && UniqueBadges(s.badges)
    ensures var s' := AwardBadge(s, user, name);
      && (forall u :: BoardAgrees(s', u)) && UniqueBadges(s'.badges)
      && HasBadge(s'.badges, user, name)
      && (forall b :: b in s.badges ==> b in s'.badges)
  {
    var s' := AwardBadge(s, user, name);
    if !HasBadge(s.badges, user, name) {
      assert s'.badges == s.badges + [Badge(user, name)];
      forall u ensures BoardAgrees(s', u) {
        assert BoardAgrees(s, u);
        assert s'.badges[..|s.badges|] == s.badges;
      }
    }
  }

  lemma {:induction false} CountUpdate(es: seq<Enrollment>, i: nat, e: Enrollment, user: string)
    requires i < |es|
    ensures CompletedCount(es[i := e], user) + (if IsCompletedBy(es[i], user) then 1 else 0)
         == CompletedCount(es, user) + (if IsCompletedBy(e, user) then 1 else 0)
  {
    var n := |es| - 1;
    if i < n {
      CountUpdate(es[..n], i, e, user);
      assert es[i := e][..n] == es[..n][i := e];
    } else {
      assert es[i := e][..n] == es[..n];
    }
  }

  /** Recording a value on an active enrolment keeps the store consistent. */
  lemma ApplyValueKeeps(content: Content, s: Store, i: nat, value: real)
    requires Consistent(content, s) && i < |s.enrollments| && s.enrollments[i].status == Active
    ensures Consistent(content, ApplyValue(content, s, i, value))
  {
    var e := s.enrollments[i];
    var pct := ProgressPct(value, e.target);
    var e' := e.(current := value, pct := pct, status := if pct >= 100.0 then Completed else e.status);
    var s1 := s.(enrollments := s.enrollments[i := e']);
    forall u ensures BoardAgrees(s1, u) {
      assert BoardAgrees(s, u);
      CountUpdate(s.enrollments, i, e', u);
    }
    if pct >= 100.0 {
      AwardKeeps(content, s1, e.user, ChallengeBadge(content, e.challenge));
    }
  }

  lemma AdvanceKeeps(content: Content, s: Store, user: string, course: string)
    requires Consistent(content, s)
    ensures Consistent(content, AdvanceCourse(content, s, user, course).0)
  {
    var key := (user, course);
    if key in s.progress && course in content.courses && !s.progress[key].completed {
      var row := s.progress[key];
      var next := if row.currentStep + 1 <= row.totalSteps then row.currentStep + 1 else row.totalSteps;
      NextStepKeeps(content, s, user, course, next);
    } else {
      BoardIgnoresProgress(s, AdvanceCourse(content, s, user, course).0);
    }
  }

  lemma NextStepKeeps(content: Content, s: Store, user: string, course: string, next: int)
    requires Consistent(content, s) && (user, course) in s.progress
    ensures var row := s.progress[(user, course)];
      var row' := row.(currentStep := next, completed := next == row.totalSteps);
      var s1 := s.(progress := s.progress[(user, course) := row']);
      Consistent(content, if next == row.totalSteps then AwardBadge(s1, user, CourseBadge(course)) else s1)
  {
    var row := s.progress[(user, course)];
    var row' := row.(currentStep := next, completed := next == row.totalSteps);
    var s1 := s.(progress := s.progress[(user, course) := row']);
    BoardIgnoresProgress(s, s1);
    if next == row.totalSteps {
      LastStepKeeps(content, s, s1, user, course);
    }
  }

  lemma LastStepKeeps(content: Content, s: Store, s1: Store, user: string, course: string)
    requires Consistent(content, s) && (forall u :: BoardAgrees(s1, u))
    requires s1 == s.(progress := s1.progress)
    requires forall k :: k in s1.progress && k != (user, course) ==> k in s.progress && s1.progress[k] == s.progress[k]
    ensures Consistent(content, AwardBadge(s1, user, CourseBadge(course)))
  {
    AwardKeeps(content, s1, user, CourseBadge(course));
  }

  lemma BoardIgnoresProgress(s: Store, s1: Store)
    requires s1.board == s.board && s1.badges == s.badges && s1.quizzes == s.quizzes && s1.enrollments == s.enrollments
    requires forall u :: BoardAgrees(s, u)
    ensures forall u :: BoardAgrees(s1, u)
  {
    forall u ensures BoardAgrees(s1, u) { assert BoardAgrees(s, u); }
  }

  lemma EnrollKeeps(content: Content, s: Store, user: string, challenge: string)
    requires Consistent(content, s)
    ensures Consistent(content, EnrollChallenge(content, s, user, challenge).0)
  {
    var s' := EnrollChallenge(content, s, user, challenge).0;
    forall u ensures BoardAgrees(s', u) {
      assert BoardAgrees(s, u);
      EnrollAppends(content, s, user, challenge, u);
    }
    EnrollKeepsOneActive(content, s, user, challenge);
  }

  lemma EnrollKeepsOneActive(content: Content, s: Store, user: string, challenge: string)
    requires OneActive(s.enrollments)
    ensures OneActive(EnrollChallenge(content, s, user, challenge).0.enrollments)
  {
  }

  lemma QuizKeeps(content: Content, s: Store, user: string, score: real)
    requires Consistent(content, s)
    ensures Consistent(content, SaveQuiz(s, user, score).0)
  {
    var s' := SaveQuiz(s, user, score).0;
    if user in s.users {
      assert s'.quizzes[..|s.quizzes|] == s.quizzes;
      forall u ensures BoardAgrees(s', u) { assert BoardAgrees(s, u); }
    }
  }

  lemma {:induction false} SyncKeeps(content: Content, s: Store, user: string, metric: Enrollment -> Metric, i: nat)
    requires Consistent(content, s) && i <= |s.enrollments|
    ensures Consistent(content, SyncFrom(content, s, user, metric, i))
    decreases |s.enrollments| - i
  {
    if i < |s.enrollments| {
      var e := s.enrollments[i];
      if e.status == Active && metric(e).Value? {
        ApplyValueKeeps(content, s, i, metric(e).value);
      }
      SyncKeeps(content, SyncOne(content, s, user, metric, i), user, metric, i + 1);
    }
  }

  // ---- Whole runs -----------------------------------------------------------------------------------------

  datatype Op = Advance(user: string, course: string) | Enroll(user: string, challenge: string)
              | Update(user: string, challenge: string, value: real) | Sync(user: string, metric: Enrollment -> Metric)
              | Quizzed(user: string, score: real)

  ghost function Step(content: Content, s: Store, op: Op): (Store, Result) {
    match op
    case Advance(user, course) => AdvanceCourse(content, s, user, course)
    case Enroll(user, challenge) => EnrollChallenge(content, s, user, challenge)
    case Update(user, challenge, value) => UpdateProgress(content, s, user, challenge, value)
    case Sync(user, metric) => (SyncFrom(content, s, user, metric, 0), Done)
    case Quizzed(user, score) => SaveQuiz(s, user, score)
  }

  ghost function Run(content: Content, ops: seq<Op>): Store {
    if ops == [] then EMPTY else Step(content, Run(content, ops[..|ops| - 1]), ops[|ops| - 1]).0
  }

  lemma StepKeeps(content: Content, s: Store, op: Op)
    requires Consistent(content, s)
    ensures Consistent(content, Step(content, s, op).0)
  {
    match op
    case Advance(user, course) => AdvanceKeeps(content, s, user, course);
    case Enroll(user, challenge) => EnrollKeeps(content, s, user, challenge);
    case Update(user, challenge, value) => UpdateKeeps(content, s, user, challenge, value);
    case Sync(user, metric) => SyncKeeps(content, s, user, metric, 0);
    case Quizzed(user, score) => QuizKeeps(content, s, user, score);
  }

  lemma UpdateKeeps(content: Content, s: Store, user: string, challenge: string, value: real)
    requires Consistent(content, s)
    ensures Consistent(content, UpdateProgress(content, s, user, challenge, value).0)
  {
    var active := ActiveRows(s.enrollments, user, challenge);
    if |active| == 1 {
      ApplyValueKeeps(content, s, active[0], value);
    }
  }

  /** After every step of every run: leaderboard rows agree with the tables, badges are unique per user, each user
      has at most one active enrolment per challenge, and whatever is completed has its badge. */
  lemma {:induction false} RunConsistent(content: Content, ops: seq<Op>)
    ensures Consistent(content, Run(content, ops))
  {
    if ops != [] {
      RunConsistent(content, ops[..|ops| - 1]);
      StepKeeps(content, Run(content, ops[..|ops| - 1]), ops[|ops| - 1]);
    }
  }

  /** No step of any run finds two rows where it expects at most one. */
  lemma NeverMultipleRows(content: Content, ops: seq<Op>, op: Op)
    ensures Step(content, Run(content, ops), op).1 != MultipleRows
  {
    RunConsistent(content, ops);
    var s := Run(content, ops);
    if op.Enroll? || op.Update? {
      AtMostOneActive(s.enrollments, op.user, op.challenge);
    }
  }

  lemma AtMostOneActive(es: seq<Enrollment>, user: string, challenge: string)
    ensures OneActive(es) ==> |ActiveRows(es, user, challenge)| <= 1
  {
    var rows := ActiveRows(es, user, challenge);
    if |rows| > 1 {
      assert rows[0] < rows[1] && es[rows[0]].status == es[rows[1]].status == Active;
      assert !OneActive(es);
    }
  }

  // ---- Where the completed-challenge count lags -----------------------------------------------------------

  ghost predicate CountIsCurrent(s: Store, user: string) {
    user in s.board && s.board[user].challengeCompleted == CompletedCount(s.enrollments, user)
  }

  /** Completing a challenge leaves the user's leaderboard row with the true number of completed challenges exactly
      when the user did not own the challenge's badge before; the second completion of the same challenge is not
      counted until something else refreshes the row. */
  lemma CountCurrentIffNewBadge(content: Content, s: Store, i: nat, value: real)
    requires Consistent(content, s) && i < |s.enrollments| && s.enrollments[i].status == Active
    requires ProgressPct(value, s.enrollments[i].target) >= 100.0
    ensures var e := s.enrollments[i];
      CountIsCurrent(ApplyValue(content, s, i, value), e.user)
      <==> !HasBadge(s.badges, e.user, ChallengeBadge(content, e.challenge))
  {
    var e := s.enrollments[i];
    var e' := e.(current := value, pct := ProgressPct(value, e.target), status := Completed);
    CountUpdate(s.enrollments, i, e', e.user);
    assert BoardAgrees(s, e.user);
    if HasBadge(s.badges, e.user, ChallengeBadge(content, e.challenge)) {
      OwnerCounts(s.badges, Badge(e.user, ChallengeBadge(content, e.challenge)));
    }
  }

  lemma {:induction false} OwnerCounts(badges: seq<Badge>, b: Badge)
    requires b in badges
    ensures BadgeCount(badges, b.user) > 0
  {
    var n := |badges| - 1;
    if badges[n] != b {
      assert badges == badges[..n] + [badges[n]];
      OwnerCounts(badges[..n], b);
    }
  }

  /** A quiz refreshes the row completely. */
  lemma QuizMakesCurrent(s: Store, user: string, score: real)
    requires user in s.users
    ensures CountIsCurrent(SaveQuiz(s, user, score).0, user)
  {
  }

  // ---- The completed-challenge count over whole runs ------------------------------------------------------

  /** What can happen to a user's leaderboard row: a new badge or quiz score refreshes it, a completion whose badge is
      already owned passes it by. */
  datatype Event = Refreshed | Missed

  function CompletionEvents(content: Content, s: Store, i: nat, value: real, user: string): seq<Event>
    requires i < |s.enrollments|
  {
    var e := s.enrollments[i];
    if e.user != user || ProgressPct(value, e.target) < 100.0 then []
    else [if HasBadge(s.badges, user, ChallengeBadge(content, e.challenge)) then Missed else Refreshed]
  }

  function SyncEvents(content: Content, s: Store, owner: string, metric: Enrollment -> Metric, i: nat, user: string)
    : seq<Event>
    requires i <= |s.enrollments|
    decreases |s.enrollments| - i
  {
    if i == |s.enrollments| then []
    else SyncOneEvents(content, s, owner, metric, i, user)
         + SyncEvents(content, SyncOne(content, s, owner, metric, i), owner, metric, i + 1, user)
  }

  function SyncOneEvents(content: Content, s: Store, owner: string, metric: Enrollment -> Metric, i: nat, user: string)
    : seq<Event>
    requires i < |s.enrollments|
  {
    var e := s.enrollments[i];
    if Synced(content, e, owner, metric) then CompletionEvents(content, s, i, metric(e).value, user) else []
  }

  function UpdateEvents(content: Content, s: Store, owner: string, challenge: string, value: real, user: string)
    : seq<Event>
  {
    var active := ActiveRows(s.enrollments, owner, challenge);
    if |active| == 1 then CompletionEvents(content, s, active[0], value, user) else []
  }

  function Events(content: Content, s: Store, op: Op, user: string): seq<Event> {
    match op
    case Advance(owner, course) =>
      if owner == user && AdvanceAwards(content, s, user, course) then [Refreshed] else []
    case Enroll(_, _) => []
    case Update(owner, challenge, value) => UpdateEvents(content, s, owner, challenge, value, user)
    case Sync(owner, metric) => SyncEvents(content, s, owner, metric, 0, user)
    case Quizzed(owner, _) => if owner == user && user in s.users then [Refreshed] else []
  }

  /** The next step completes the course, and its badge is not owned yet. */
  predicate AdvanceAwards(content: Content, s: Store, user: string, course: string) {
    && course in content.courses && (user, course) in s.progress && !s.progress[(user, course)].completed
    && s.progress[(user, course)].currentStep + 1 >= s.progress[(user, course)].totalSteps
    && !HasBadge(s.badges, user, CourseBadge(course))
  }

  /** Everything that happened to the user's row, in order. */
  ghost function History(content: Content, ops: seq<Op>, user: string): seq<Event> {
    if ops == [] then []
    else
      var n := |ops| - 1;
      History(content, ops[..n], user) + Events(content, Run(content, ops[..n]), ops[n], user)
  }

  /** The completions since the last refresh. */
  ghost function MissedSince(events: seq<Event>): nat {
    if events == [] || events[|events| - 1] == Refreshed then 0 else MissedSince(events[..|events| - 1]) + 1
  }

  /** The row exists once something happened to it, and lags by the completions missed since its last refresh. */
  ghost predicate LagsBy(s: Store, user: string, events: seq<Event>) {
    && (user in s.board <==> events != [])
    && CompletedCount(s.enrollments, user)
       == (if user in s.board then s.board[user].challengeCompleted else 0) + MissedSince(events)
  }

  lemma RefreshLags(s: Store, user: string, events: seq<Event>)
    ensures LagsBy(UpdateLeaderboard(s, user), user, events + [Refreshed])
  {
  }

  lemma MissedLags(s: Store, s': Store, user: string, events: seq<Event>)
    requires LagsBy(s, user, events) && user in s.board && s'.board == s.board
    requires CompletedCount(s'.enrollments, user) == CompletedCount(s.enrollments, user) + 1
    ensures LagsBy(s', user, events + [Missed])
  {
    assert (events + [Missed])[..|events|] == events;
  }

  lemma CompletionLags(content: Content, s: Store, i: nat, value: real, user: string, events: seq<Event>)
    requires Consistent(content, s) && i < |s.enrollments| && s.enrollments[i].status == Active
    requires LagsBy(s, user, events)
    ensures LagsBy(ApplyValue(content, s, i, value), user, events + CompletionEvents(content, s, i, value, user))
  {
    var e, pct := s.enrollments[i], ProgressPct(value, s.enrollments[i].target);
    var e' := e.(current := value, pct := pct, status := if pct >= 100.0 then Completed else e.status);
    var s1 := s.(enrollments := s.enrollments[i := e']);
    var badge := ChallengeBadge(content, e.challenge);
    CountUpdate(s.enrollments, i, e', user);
    if e.user != user || pct < 100.0 {
      assert events + [] == events;
    } else if HasBadge(s.badges, user, badge) {
      OwnerCounts(s.badges, Badge(user, badge));
      assert BoardAgrees(s, user);
      MissedLags(s, s1, user, events);
    } else {
      RefreshLags(s1.(badges := s1.badges + [Badge(user, badge)]), user, events);
    }
  }

  lemma SyncOneLags(content: Content, s: Store, owner: string, metric: Enrollment -> Metric, i: nat, user: string,
                    events: seq<Event>)
    requires Consistent(content, s) && i < |s.enrollments| && LagsBy(s, user, events)
    ensures Consistent(content, SyncOne(content, s, owner, metric, i))
    ensures LagsBy(SyncOne(content, s, owner, metric, i), user,
                   events + SyncOneEvents(content, s, owner, metric, i, user))
  {
    var e := s.enrollments[i];
    if Synced(content, e, owner, metric) {
      CompletionLags(content, s, i, metric(e).value, user, events);
      ApplyValueKeeps(content, s, i, metric(e).value);
    } else {
      assert events + [] == events;
    }
  }

  lemma SyncUnfolds(content: Content, s: Store, owner: string, metric: Enrollment -> Metric, i: nat, user: string,
                    events: seq<Event>)
    requires i < |s.enrollments|
    ensures var next := SyncOne(content, s, owner, metric, i);
      && SyncFrom(content, s, owner, metric, i) == SyncFrom(content, next, owner, metric, i + 1)
      && events + SyncEvents(content, s, owner, metric, i, user)
         == events + SyncOneEvents(content, s, owner, metric, i, user)
            + SyncEvents(content, next, owner, metric, i + 1, user)
  {
  }

  lemma {:induction false} SyncLags(content: Content, s: Store, owner: string, metric: Enrollment -> Metric, i: nat,
                                    user: string, events: seq<Event>, after: seq<Event>)
    requires Consistent(content, s) && i <= |s.enrollments| && LagsBy(s, user, events)
    requires after == events + SyncEvents(content, s, owner, metric, i, user)
    ensures LagsBy(SyncFrom(content, s, owner, metric, i), user, after)
    decreases |s.enrollments| - i
  {
    if i == |s.enrollments| {
      assert events + [] == events;
    } else {
      var next, here := SyncOne(content, s, owner, metric, i), SyncOneEvents(content, s, owner, metric, i, user);
      SyncOneLags(content, s, owner, metric, i, user, events);
      SyncUnfolds(content, s, owner, metric, i, user, events);
      SyncLags(content, next, owner, metric, i + 1, user, events + here, after);
    }
  }

  /** Whoever else advances, or without an award, the user's row and enrolments are as before. */
  lemma AdvanceElsewhere(content: Content, s: Store, owner: string, course: string, user: string)
    requires owner != user || !AdvanceAwards(content, s, user, course)
    ensures SameRow(s, AdvanceCourse(content, s, owner, course).0, user)
  {
  }

  lemma AdvanceRefreshes(content: Content, s: Store, user: string, course: string, events: seq<Event>)
    requires AdvanceAwards(content, s, user, course)
    ensures LagsBy(AdvanceCourse(content, s, user, course).0, user, events + [Refreshed])
  {
    var row, badge := s.progress[(user, course)], CourseBadge(course);
    var progress := s.progress[(user, course) := row.(currentStep := row.totalSteps, completed := true)];
    RefreshLags(s.(progress := progress, badges := s.badges + [Badge(user, badge)]), user, events);
  }

  lemma AdvanceLags(content: Content, s: Store, owner: string, course: string, user: string, events: seq<Event>)
    requires LagsBy(s, user, events)
    ensures LagsBy(AdvanceCourse(content, s, owner, course).0, user,
                   events + if owner == user && AdvanceAwards(content, s, user, course) then [Refreshed] else [])
  {
    if owner == user && AdvanceAwards(content, s, user, course) {
      AdvanceRefreshes(content, s, user, course, events);
    } else {
      AdvanceElsewhere(content, s, owner, course, user);
      StillLags(s, AdvanceCourse(content, s, owner, course).0, user, events);
    }
  }

  lemma StepLags(content: Content, s: Store, op: Op, user: string, events: seq<Event>)
    requires Consistent(content, s) && LagsBy(s, user, events)
    ensures LagsBy(Step(content, s, op).0, user, events + Events(content, s, op, user))
  {
    match op
    case Advance(owner, course) => AdvanceLags(content, s, owner, course, user, events);
    case Enroll(owner, challenge) => EnrollLags(content, s, owner, challenge, user, events);
    case Update(owner, challenge, value) => UpdateLags(content, s, owner, challenge, value, user, events);
    case Sync(owner, metric) =>
      SyncLags(content, s, owner, metric, 0, user, events, events + SyncEvents(content, s, owner, metric, 0, user));
    case Quizzed(owner, score) => QuizLags(content, s, owner, score, user, events);
  }

  lemma UpdateLags(content: Content, s: Store, owner: string, challenge: string, value: real, user: string,
                   events: seq<Event>)
    requires Consistent(content, s) && LagsBy(s, user, events)
    ensures LagsBy(UpdateProgress(content, s, owner, challenge, value).0, user,
                   events + UpdateEvents(content, s, owner, challenge, value, user))
  {
    var active := ActiveRows(s.enrollments, owner, challenge);
    if |active| == 1 {
      var i := active[0];
      assert IsActive(s.enrollments[i], owner, challenge);
      CompletionLags(content, s, i, value, user, events);
    } else {
      assert events + [] == events;
    }
  }

  lemma QuizLags(content: Content, s: Store, owner: string, score: real, user: string, events: seq<Event>)
    requires LagsBy(s, user, events)
    ensures LagsBy(SaveQuiz(s, owner, score).0, user, events + Events(content, s, Quizzed(owner, score), user))
  {
    if owner == user && user in s.users {
      RefreshLags(s.(quizzes := s.quizzes + [Quiz(user, score)]), user, events);
    } else {
      assert events + [] == events;
    }
  }

  lemma ActiveNotCounted(es: seq<Enrollment>, e: Enrollment, user: string)
    requires e.status == Active
    ensures CompletedCount(es + [e], user) == CompletedCount(es, user)
  {
    assert (es + [e])[..|es|] == es;
  }

  /** The user's row and number of completed enrolments are the same in both stores. */
  ghost predicate SameRow(s: Store, s': Store, user: string) {
    && (user in s'.board <==> user in s.board) && (user in s.board ==> s'.board[user] == s.board[user])
    && CompletedCount(s'.enrollments, user) == CompletedCount(s.enrollments, user)
  }

  lemma EnrollAppends(content: Content, s: Store, owner: string, challenge: string, user: string)
    ensures SameRow(s, EnrollChallenge(content, s, owner, challenge).0, user)
  {
    if challenge in content.challenges {
      var target := content.challenges[challenge].targetValue;
      ActiveNotCounted(s.enrollments, Enrollment(owner, challenge, Active, 0.0, target, 0.0), user);
    }
  }

  lemma StillLags(s: Store, s': Store, user: string, events: seq<Event>)
    requires LagsBy(s, user, events) && SameRow(s, s', user)
    ensures LagsBy(s', user, events + [])
  {
    assert events + [] == events;
  }

  lemma EnrollLags(content: Content, s: Store, owner: string, challenge: string, user: string, events: seq<Event>)
    requires LagsBy(s, user, events)
    ensures LagsBy(EnrollChallenge(content, s, owner, challenge).0, user, events + [])
  {
    EnrollAppends(content, s, owner, challenge, user);
    StillLags(s, EnrollChallenge(content, s, owner, challenge).0, user, events);
  }

  /** In every run the leaderboard row lags behind by exactly the completions, since its last refresh, whose badge was
      already owned. */
  lemma {:induction false} RunLagsBy(content: Content, ops: seq<Op>, user: string)
    ensures LagsBy(Run(content, ops), user, History(content, ops, user))
  {
    if ops != [] {
      var n := |ops| - 1;
      RunLagsBy(content, ops[..n], user);
      RunConsistent(content, ops[..n]);
      StepLags(content, Run(content, ops[..n]), ops[n], user, History(content, ops[..n], user));
    }
  }

  predicate JustRefreshed(events: seq<Event>) { events != [] && events[|events| - 1] == Refreshed }

  lemma CurrentIffRefreshed(s: Store, user: string, events: seq<Event>)
    requires LagsBy(s, user, events)
    ensures CountIsCurrent(s, user) <==> JustRefreshed(events)
  {
  }

  /** In every run the completed count is true exactly when the last event was a refresh. */
  lemma RunCountCurrentIff(content: Content, ops: seq<Op>, user: string)
    ensures CountIsCurrent(Run(content, ops), user) <==> JustRefreshed(History(content, ops, user))
  {
    RunLagsBy(content, ops, user);
    CurrentIffRefreshed(Run(content, ops), user, History(content, ops, user));
  }

  lemma RunOfFour(content: Content, a: Op, b: Op, c: Op, d: Op)
    ensures var s1 := Step(content, EMPTY, a).0;
      var s2 := Step(content, s1, b).0;
      var s3 := Step(content, s2, c).0;
      Run(content, [a, b]) == s2 && Run(content, [a, b, c]) == s3
      && Run(content, [a, b, c, d]) == Step(content, s3, d).0
  {
    assert [a, b, c, d][..3] == [a, b, c] && [a, b, c][..2] == [a, b] && [a, b][..1] == [a] && [a][..0] == [];
    assert Run(content, []) == EMPTY;
    assert Run(content, [a]) == Step(content, EMPTY, a).0;
    assert Run(content, [a, b]) == Step(content, Run(content, [a]), b).0;
    assert Run(content, [a, b, c]) == Step(content, Run(content, [a, b]), c).0;
  }

  /** An enrolment in a challenge with target 1, new and completed. */
  function Begun(user: string, challenge: string): Enrollment { Enrollment(user, challenge, Active, 0.0, 1.0, 0.0) }

  function Completion(user: string, challenge: string): Enrollment {
    Enrollment(user, challenge, Completed, 1.0, 1.0, 100.0)
  }

  lemma EnrollsAnew(content: Content, s: Store, user: string, challenge: string)
    requires challenge in content.challenges && content.challenges[challenge].targetValue == 1.0
    requires ActiveRows(s.enrollments, user, challenge) == []
    ensures var s' := EnrollChallenge(content, s, user, challenge).0;
      s'.enrollments == s.enrollments + [Begun(user, challenge)] && s'.badges == s.badges
    ensures ActiveRows(s.enrollments + [Begun(user, challenge)], user, challenge) == [|s.enrollments|]
  {
    OneRow(s.enrollments, Begun(user, challenge), user, challenge);
  }

  lemma CompletesLast(content: Content, s: Store, es: seq<Enrollment>, user: string, challenge: string)
    requires s.enrollments == es + [Begun(user, challenge)]
    requires ActiveRows(s.enrollments, user, challenge) == [|es|]
    ensures UpdateProgress(content, s, user, challenge, 1.0).0 == ApplyValue(content, s, |es|, 1.0)
    ensures ApplyValue(content, s, |es|, 1.0).enrollments == es + [Completion(user, challenge)]
  {
    assert s.enrollments[|es|] == Begun(user, challenge);
    assert s.enrollments[|es| := Completion(user, challenge)] == es + [Completion(user, challenge)];
  }

  /** A concrete run: completing the same challenge twice leaves the row one completion behind. */
  lemma SecondCompletionNotCounted(content: Content, user: string, challenge: string)
    requires challenge in content.challenges && content.challenges[challenge].targetValue == 1.0
    ensures var ops := [Enroll(user, challenge), Update(user, challenge, 1.0),
                        Enroll(user, challenge), Update(user, challenge, 1.0)];
      !CountIsCurrent(Run(content, ops), user)
  {
    var enroll, update := Enroll(user, challenge), Update(user, challenge, 1.0);
    RunOfFour(content, enroll, update, enroll, update);
    EnrollsAnew(content, EMPTY, user, challenge);
    CompletesLast(content, Step(content, EMPTY, enroll).0, [], user, challenge);
    RunConsistent(content, [enroll, update]);
    RunConsistent(content, [enroll, update, enroll]);
    OnceDone(content, Run(content, [enroll, update]), user, challenge);
  }

  /** With the challenge completed once, and its badge owned, the next completion is missed. */
  lemma OnceDone(content: Content, s: Store, user: string, challenge: string)
    requires challenge in content.challenges && content.challenges[challenge].targetValue == 1.0
    requires s.enrollments == [Completion(user, challenge)] && Consistent(content, s)
    requires Consistent(content, EnrollChallenge(content, s, user, challenge).0)
    ensures var s' := EnrollChallenge(content, s, user, challenge).0;
      !CountIsCurrent(UpdateProgress(content, s', user, challenge, 1.0).0, user)
  {
    var done := Completion(user, challenge);
    assert [done][..0] == [] && ActiveRows([done], user, challenge) == [];
    EnrollsAnew(content, s, user, challenge);
    var s' := EnrollChallenge(content, s, user, challenge).0;
    CompletesLast(content, s', [done], user, challenge);
    assert s.enrollments[0].status == Completed;
    CountCurrentIffNewBadge(content, s', 1, 1.0);
  }

  lemma OneRow(es: seq<Enrollment>, e: Enrollment, user: string, challenge: string)
    requires IsActive(e, user, challenge) && ActiveRows(es, user, challenge) == []
    ensures ActiveRows(es + [e], user, challenge) == [|es|]
  {
    assert (es + [e])[..|es|] == es;
  }

  // ---- Course progress over whole runs ------------------------------------------------------------------------------

  /** The successful advances of the user in the course. */
  ghost function Advances(content: Content, ops: seq<Op>, user: string, course: string): nat {
    if ops == [] then 0
    else
      var n := |ops| - 1;
      Advances(content, ops[..n], user, course)
      + if ops[n] == Advance(user, course) && Step(content, Run(content, ops[..n]), ops[n]).1 == Done then 1 else 0
  }

  /** The row after n advances: the first one only creates it, and the course is completed by reaching its last step
      in a later one. */
  function ProgressAfter(n: nat, total: int): Progress
    requires n > 0
  {
    Progress(if n == 1 || n <= total then n else total, total, n > 1 && n >= total)
  }

  ghost predicate ProgressIs(content: Content, s: Store, user: string, course: string, n: nat) {
    && ((user, course) in s.progress <==> n > 0)
    && (n > 0 ==> course in content.courses
                  && s.progress[(user, course)] == ProgressAfter(n, content.courses[course]))
  }

  lemma {:induction false} SyncIgnoresProgress(content: Content, s: Store, user: string, metric: Enrollment -> Metric,
                                               i: nat)
    requires i <= |s.enrollments|
    ensures SyncFrom(content, s, user, metric, i).progress == s.progress
    decreases |s.enrollments| - i
  {
    if i < |s.enrollments| {
      SyncIgnoresProgress(content, SyncOne(content, s, user, metric, i), user, metric, i + 1);
    }
  }

  lemma AdvanceMoves(content: Content, s: Store, user: string, course: string, n: nat)
    requires ProgressIs(content, s, user, course, n)
    ensures var (s', r) := AdvanceCourse(content, s, user, course);
      ProgressIs(content, s', user, course, if r == Done then n + 1 else n)
  {
  }

  lemma OthersKeepProgress(content: Content, s: Store, op: Op, user: string, course: string)
    requires op != Advance(user, course)
    ensures var s' := Step(content, s, op).0;
      && ((user, course) in s'.progress <==> (user, course) in s.progress)
      && ((user, course) in s.progress ==> s'.progress[(user, course)] == s.progress[(user, course)])
  {
    if op.Sync? {
      SyncIgnoresProgress(content, s, op.user, op.metric, 0);
    }
  }

  /** In every run, the row of a user and a course is the one that follows from the number of successful advances. */
  lemma {:induction false} RunProgress(content: Content, ops: seq<Op>, user: string, course: string)
    ensures ProgressIs(content, Run(content, ops), user, course, Advances(content, ops, user, course))
  {
    if ops != [] {
      var n := |ops| - 1;
      RunProgress(content, ops[..n], user, course);
      if ops[n] == Advance(user, course) {
        AdvanceMoves(content, Run(content, ops[..n]), user, course, Advances(content, ops[..n], user, course));
      } else {
        OthersKeepProgress(content, Run(content, ops[..n]), ops[n], user, course);
      }
    }
  }

  lemma {:induction false} AdvancesGrow(content: Content, ops: seq<Op>, k: nat, user: string, course: string)
    requires k <= |ops|
    ensures Advances(content, ops[..k], user, course) <= Advances(content, ops, user, course)
  {
    if k < |ops| {
      AdvancesGrow(content, ops[..|ops| - 1], k, user, course);
      assert ops[..|ops| - 1][..k] == ops[..k];
    } else {
      assert ops[..k] == ops;
    }
  }

  /** In every run the current step of a started course of at least one step never falls and stays between 1 and the
      number of steps, and a completed course stays as it is, whatever happens later. */
  lemma ProgressNeverFalls(content: Content, ops: seq<Op>, k: nat, user: string, course: string)
    requires k <= |ops| && (user, course) in Run(content, ops[..k]).progress
    ensures (user, course) in Run(content, ops).progress
    ensures var row := Run(content, ops[..k]).progress[(user, course)];
      var row' := Run(content, ops).progress[(user, course)];
      && (row.completed ==> row' == row)
      && (row'.totalSteps >= 1 ==> 1 <= row.currentStep <= row'.currentStep <= row'.totalSteps)
  {
    RunProgress(content, ops[..k], user, course);
    RunProgress(content, ops, user, course);
    AdvancesGrow(content, ops, k, user, course);
  }

  ghost predicate CourseCompleted(s: Store, user: string, course: string) {
    (user, course) in s.progress && s.progress[(user, course)].completed
  }

  /** In every run a course is completed, with its badge, exactly after as many successful advances as it has steps,
      but never before the second one: a course of one step takes two. */
  lemma CourseCompletedIff(content: Content, ops: seq<Op>, user: string, course: string)
    ensures var n := Advances(content, ops, user, course);
      CourseCompleted(Run(content, ops), user, course)
      <==> course in content.courses && n >= 2 && n >= content.courses[course]
    ensures CourseCompleted(Run(content, ops), user, course)
        ==> HasBadge(Run(content, ops).badges, user, CourseBadge(course))
  {
    RunProgress(content, ops, user, course);
    RunConsistent(content, ops);
  }

  // ---- Quiz streaks ---------------------------------------------------------------------------------------

  const PASS_MARK: real := 60.0

  /** All scores from position i up to j pass. */
  ghost predicate PassingRun(scores: seq<real>, i: int, j: int) {
    0 <= i <= j <= |scores| && forall k :: i <= k < j ==> scores[k] >= PASS_MARK
  }

  /** The fraud_quiz_streak metric is the length of the longest run of consecutive passing scores. */
  method LongestStreak(scores: seq<real>) returns (best: nat)
    ensures exists i, j :: PassingRun(scores, i, j) && j - i == best
    ensures forall i, j :: PassingRun(scores, i, j) ==> j - i <= best
  {
    var streak := 0;
    best := 0;
    assert PassingRun(scores, 0, 0);
    ghost var from, to := 0, 0;
    for n := 0 to |scores|
      invariant streak <= n && PassingRun(scores, n - streak, n)
      invariant PassingRun(scores, from, to) && to - from == best
      invariant streak <= best
      invariant forall i, j :: PassingRun(scores, i, j) && j <= n ==> j - i <= best
      invariant forall i :: PassingRun(scores, i, n) ==> n - i <= streak
    {
      ghost var next := n + 1;
      forall i | PassingRun(scores, i, next) && i <= n ensures scores[n] >= PASS_MARK && n - i <= streak {
        assert PassingRun(scores, i, n);
      }
      if scores[n] >= PASS_MARK {
        streak := streak + 1;
        if streak > best {
          best, from, to := streak, n + 1 - streak, n + 1;
        }
      } else {
        streak := 0;
      }
    }
  }
}
