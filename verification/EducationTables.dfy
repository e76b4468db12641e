/** What the education programme's tables hold after any run: enrolments, users, quiz scores and badges. */
module EducationTables {
  import opened EducationStore
  import opened Numbers
  import opened Sums

  // ---- Enrolments -------------------------------------------------------------------------------

  /** An enrolment has its challenge's target; its percentage is that of value and target, at most 100; and it is
      completed exactly when there is a positive target that the value reaches. */
  ghost predicate RowSound(content: Content, e: Enrollment) {
    && e.challenge in content.challenges && e.target == content.challenges[e.challenge].targetValue
    && (e.target <= 0.0 ==> e.pct == 0.0) && (e.target > 0.0 ==> e.pct * e.target == Min(e.current, e.target) * 100.0)
    && (e.status == Completed <==> e.target > 0.0 && e.current >= e.target)
  }

  ghost predicate RowsSound(content: Content, es: seq<Enrollment>) {
    forall i :: 0 <= i < |es| ==> RowSound(content, es[i])
  }

  lemma PctLaw(value: real, target: real)
    ensures target <= 0.0 ==> ProgressPct(value, target) == 0.0
    ensures target > 0.0 ==> ProgressPct(value, target) * target == Min(value, target) * 100.0
    ensures ProgressPct(value, target) >= 100.0 <==> target > 0.0 && value >= target
  {
    if target > 0.0 {
      var q := value / target;
      assert q * target == value;
      assert q * 100.0 * target == value * 100.0;
      RatioAtLeastOne(q, target, value);
    }
  }

  lemma RatioAtLeastOne(q: real, target: real, value: real)
    requires target > 0.0 && q * target == value
    ensures q >= 1.0 <==> value >= target
  {
    assert (q - 1.0) * target == value - target;
    if q >= 1.0 { assert (q - 1.0) * target >= 0.0; } else { assert (1.0 - q) * target > 0.0; }
  }

  function Recorded(e: Enrollment, value: real): Enrollment {
    e.(current := value, pct := ProgressPct(value, e.target),
       status := if e.target > 0.0 && value >= e.target then Completed else e.status)
  }

  lemma RecordedSound(content: Content, e: Enrollment, value: real)
    requires RowSound(content, e) && e.status == Active
    ensures RowSound(content, Recorded(e, value))
  {
    PctLaw(value, e.target);
  }

  /** Recording a value changes that one enrolment, and completes it exactly when it reaches a positive target. */
  lemma ApplyRecords(content: Content, s: Store, i: nat, value: real)
    requires i < |s.enrollments|
    ensures ApplyValue(content, s, i, value).enrollments == s.enrollments[i := Recorded(s.enrollments[i], value)]
  {
    PctLaw(value, s.enrollments[i].target);
  }

  lemma ApplySound(content: Content, s: Store, i: nat, value: real)
    requires RowsSound(content, s.enrollments) && i < |s.enrollments| && s.enrollments[i].status == Active
    ensures RowsSound(content, ApplyValue(content, s, i, value).enrollments)
  {
    ApplyRecords(content, s, i, value);
    RecordedSound(content, s.enrollments[i], value);
  }

  lemma {:induction false} SyncSound(content: Content, s: Store, user: string, metric: Enrollment -> Metric, i: nat)
    requires RowsSound(content, s.enrollments) && i <= |s.enrollments|
    ensures RowsSound(content, SyncFrom(content, s, user, metric, i).enrollments)
    decreases |s.enrollments| - i
  {
    if i < |s.enrollments| {
      if Synced(content, s.enrollments[i], user, metric) {
        ApplySound(content, s, i, metric(s.enrollments[i]).value);
      }
      SyncSound(content, SyncOne(content, s, user, metric, i), user, metric, i + 1);
    }
  }

  lemma AdvanceKeepsEnrollments(content: Content, s: Store, user: string, course: string)
    ensures AdvanceCourse(content, s, user, course).0.enrollments == s.enrollments
  {
  }

  lemma StepSound(content: Content, s: Store, op: Op)
    requires RowsSound(content, s.enrollments)
    ensures RowsSound(content, Step(content, s, op).0.enrollments)
  {
    match op
    case Advance(user, course) => AdvanceKeepsEnrollments(content, s, user, course);
    case Enroll(user, challenge) =>
    case Update(user, challenge, value) =>
      var active := ActiveRows(s.enrollments, user, challenge);
      if |active| == 1 {
        ApplySound(content, s, active[0], value);
      }
    case Sync(user, metric) => SyncSound(content, s, user, metric, 0);
    case Quizzed(user, score) =>
  }

  /** In every run every enrolment is sound: in particular a challenge is completed exactly when its value reaches
      its positive target. */
  lemma {:induction false} RunRowsSound(content: Content, ops: seq<Op>)
    ensures RowsSound(content, Run(content, ops).enrollments)
  {
    if ops != [] {
      RunRowsSound(content, ops[..|ops| - 1]);
      StepSound(content, Run(content, ops[..|ops| - 1]), ops[|ops| - 1]);
    }
  }

  /** Enrolling in a known challenge leaves an active enrolment as it is, and otherwise adds one that starts at zero. */
  lemma EnrollRecords(content: Content, ops: seq<Op>, user: string, challenge: string)
    requires challenge in content.challenges
    ensures var s, (s', r) := Run(content, ops), Step(content, Run(content, ops), Enroll(user, challenge));
      r == Done && s'.enrollments ==
        if NoneActive(s.enrollments, user, challenge)
        then s.enrollments + [Enrollment(user, challenge, Active, 0.0, content.challenges[challenge].targetValue, 0.0)]
        else s.enrollments
  {
    RunConsistent(content, ops);
    EnrollRecordsIn(content, Run(content, ops), user, challenge);
  }

  lemma EnrollRecordsIn(content: Content, s: Store, user: string, challenge: string)
    requires challenge in content.challenges && OneActive(s.enrollments)
    ensures var (s', r) := EnrollChallenge(content, s, user, challenge);
      r == Done && s'.enrollments ==
        if NoneActive(s.enrollments, user, challenge)
        then s.enrollments + [Enrollment(user, challenge, Active, 0.0, content.challenges[challenge].targetValue, 0.0)]
        else s.enrollments
  {
    var active := ActiveRows(s.enrollments, user, challenge);
    AtMostOneActive(s.enrollments, user, challenge);
    if active != [] {
      assert IsActive(s.enrollments[active[0]], user, challenge);
    }
  }

  predicate NoneActive(es: seq<Enrollment>, user: string, challenge: string) {
    forall i :: 0 <= i < |es| ==> !IsActive(es[i], user, challenge)
  }

  ghost predicate RecordedAt(es: seq<Enrollment>, es': seq<Enrollment>, i: int, user: string, challenge: string,
                             value: real)
  {
    0 <= i < |es| && IsActive(es[i], user, challenge) && es' == es[i := Recorded(es[i], value)]
  }

  /** An update records its value in the one active enrolment of the pair and leaves all others as they are; without
      one it reports so and changes nothing. */
  lemma UpdateRecords(content: Content, ops: seq<Op>, user: string, challenge: string, value: real)
    ensures var s, (s', r) := Run(content, ops), Step(content, Run(content, ops), Update(user, challenge, value));
      if NoneActive(s.enrollments, user, challenge) then r == NoActiveChallenge && s' == s
      else r == Done && exists i :: RecordedAt(s.enrollments, s'.enrollments, i, user, challenge, value)
  {
    RunConsistent(content, ops);
    UpdateRecordsIn(content, Run(content, ops), user, challenge, value);
  }

  lemma UpdateRecordsIn(content: Content, s: Store, user: string, challenge: string, value: real)
    requires OneActive(s.enrollments)
    ensures var (s', r) := UpdateProgress(content, s, user, challenge, value);
      if NoneActive(s.enrollments, user, challenge) then r == NoActiveChallenge && s' == s
      else r == Done && exists i :: RecordedAt(s.enrollments, s'.enrollments, i, user, challenge, value)
  {
    var active := ActiveRows(s.enrollments, user, challenge);
    AtMostOneActive(s.enrollments, user, challenge);
    if active != [] {
      var i := active[0];
      ApplyRecords(content, s, i, value);
      assert RecordedAt(s.enrollments, ApplyValue(content, s, i, value).enrollments, i, user, challenge, value);
      assert IsActive(s.enrollments[i], user, challenge);
    }
  }

  /** A synchronisation records in each of the user's active enrolments the metric that was computed for it, where
      there is one, and leaves all others as they are. */
  lemma {:induction false} SyncRecords(content: Content, s: Store, user: string, metric: Enrollment -> Metric, i: nat,
                                       j: nat)
    requires i <= |s.enrollments| && j < |s.enrollments|
    ensures var e := s.enrollments[j];
      SyncFrom(content, s, user, metric, i).enrollments[j]
      == if i <= j && e.user == user && e.status == Active && e.challenge in content.challenges && metric(e).Value?
         then Recorded(e, metric(e).value) else e
    decreases |s.enrollments| - i
  {
    if i < |s.enrollments| {
      var e := s.enrollments[i];
      if Synced(content, e, user, metric) {
        ApplyRecords(content, s, i, metric(e).value);
      }
      SyncRecords(content, SyncOne(content, s, user, metric, i), user, metric, i + 1, j);
    }
  }

  // ---- Users, quizzes and counts --------------------------------------------------------------------------

  /** The user has enrolled in some challenge that exists. */
  ghost predicate HasEnrolled(content: Content, ops: seq<Op>, user: string) {
    exists i :: 0 <= i < |ops| && EnrolsUser(content, ops[i], user)
  }

  ghost predicate EnrolsUser(content: Content, op: Op, user: string) {
    op.Enroll? && op.user == user && op.challenge in content.challenges
  }

  lemma {:induction false} SyncIgnoresUsers(content: Content, s: Store, user: string, metric: Enrollment -> Metric,
                                            i: nat)
    requires i <= |s.enrollments|
    ensures var s' := SyncFrom(content, s, user, metric, i); s'.users == s.users && s'.quizzes == s.quizzes
    decreases |s.enrollments| - i
  {
    if i < |s.enrollments| {
      SyncIgnoresUsers(content, SyncOne(content, s, user, metric, i), user, metric, i + 1);
    }
  }

  lemma StepUsers(content: Content, s: Store, op: Op)
    requires Step(content, s, op).1 != MultipleRows
    ensures var s' := Step(content, s, op).0;
      && (forall u :: u in s'.users <==> u in s.users || EnrolsUser(content, op, u))
      && s'.quizzes == if op.Quizzed? && op.user in s.users then s.quizzes + [Quiz(op.user, op.score)] else s.quizzes
  {
    if op.Sync? {
      SyncIgnoresUsers(content, s, op.user, op.metric, 0);
    }
  }

  /** In every run the users are those who have enrolled in a challenge. */
  lemma {:induction false} RunUsers(content: Content, ops: seq<Op>, user: string)
    ensures user in Run(content, ops).users <==> HasEnrolled(content, ops, user)
  {
    if ops != [] {
      var n := |ops| - 1;
      RunUsers(content, ops[..n], user);
      NeverMultipleRows(content, ops[..n], ops[n]);
      StepUsers(content, Run(content, ops[..n]), ops[n]);
      EnrolledNext(content, ops, user);
    }
  }

  lemma EnrolledNext(content: Content, ops: seq<Op>, user: string)
    requires ops != []
    ensures HasEnrolled(content, ops, user) <==>
      HasEnrolled(content, ops[..|ops| - 1], user) || EnrolsUser(content, ops[|ops| - 1], user)
  {
    var n := |ops| - 1;
    assert forall i :: 0 <= i < n ==> ops[..n][i] == ops[i];
  }

  /** The scores the user has saved after enrolling in some challenge. */
  ghost function SavedScores(content: Content, ops: seq<Op>, user: string): seq<real> {
    if ops == [] then []
    else var n := |ops| - 1;
      SavedScores(content, ops[..n], user)
      + (if ops[n].Quizzed? && ops[n].user == user && HasEnrolled(content, ops[..n], user) then [ops[n].score] else [])
  }

  ghost function Itself(): (f: real -> real)
    ensures forall x :: f(x) == x
  {
    x => x
  }

  lemma SavedNext(content: Content, ops: seq<Op>, user: string)
    requires ops != []
    ensures var n := |ops| - 1;
      var before, saves := SavedScores(content, ops[..n], user), ops[n].Quizzed? && ops[n].user == user
                                                                && HasEnrolled(content, ops[..n], user);
      && (saves ==> SavedScores(content, ops, user) == before + [ops[n].score])
      && (!saves ==> SavedScores(content, ops, user) == before)
  {
  }

  lemma TableNext(content: Content, ops: seq<Op>, user: string)
    requires ops != []
    ensures var n := |ops| - 1;
      var before, after := Run(content, ops[..n]).quizzes, Run(content, ops).quizzes;
      if ops[n].Quizzed? && HasEnrolled(content, ops[..n], ops[n].user)
      then after == before + [Quiz(ops[n].user, ops[n].score)] else after == before
  {
    var n := |ops| - 1;
    NeverMultipleRows(content, ops[..n], ops[n]);
    StepUsers(content, Run(content, ops[..n]), ops[n]);
    RunUsers(content, ops[..n], ops[n].user);
  }

  /** The user's scores in the table and in the run have the same number and the same sum. */
  ghost predicate SameScores(quizzes: seq<Quiz>, user: string, scores: seq<real>) {
    ScoreCount(quizzes, user) == |scores| && ScoreSum(quizzes, user) == SumOf(Itself(), scores)
  }

  lemma SameScoresNext(quizzes: seq<Quiz>, quiz: Quiz, user: string, scores: seq<real>)
    requires SameScores(quizzes, user, scores)
    ensures SameScores(quizzes + [quiz], user, if quiz.user == user then scores + [quiz.score] else scores)
  {
    NextQuiz(quizzes, quiz, user);
    SumOfSnoc(Itself(), scores, quiz.score);
  }

  lemma {:induction false} RunQuizzes(content: Content, ops: seq<Op>, user: string)
    ensures SameScores(Run(content, ops).quizzes, user, SavedScores(content, ops, user))
  {
    if ops != [] {
      var n := |ops| - 1;
      RunQuizzes(content, ops[..n], user);
      SavedNext(content, ops, user);
      TableNext(content, ops, user);
      if ops[n].Quizzed? {
        SameScoresNext(Run(content, ops[..n]).quizzes, Quiz(ops[n].user, ops[n].score), user,
                       SavedScores(content, ops[..n], user));
      }
    }
  }

  lemma NextQuiz(quizzes: seq<Quiz>, quiz: Quiz, user: string)
    ensures ScoreCount(quizzes + [quiz], user) == ScoreCount(quizzes, user) + if quiz.user == user then 1 else 0
    ensures ScoreSum(quizzes + [quiz], user) == ScoreSum(quizzes, user) + if quiz.user == user then quiz.score else 0.0
  {
    assert (quizzes + [quiz])[..|quizzes|] == quizzes;
  }

  ghost predicate IsMean(avg: real, scores: seq<real>) {
    if scores == [] then avg == 0.0 else avg * |scores| as real == SumOf(Itself(), scores)
  }

  lemma MeanOfScores(quizzes: seq<Quiz>, user: string, scores: seq<real>)
    requires SameScores(quizzes, user, scores)
    ensures IsMean(QuizAvg(quizzes, user), scores)
  {
    if scores != [] {
      TimesCount(ScoreSum(quizzes, user), |scores| as real);
    }
  }

  lemma TimesCount(sum: real, count: real)
    requires count > 0.0
    ensures sum / count * count == sum
  {
  }

  /** In every run the leaderboard's quiz average is the mean of the scores the user has saved, and 0 without any. */
  lemma RunQuizAverage(content: Content, ops: seq<Op>, user: string)
    requires user in Run(content, ops).board
    ensures IsMean(Run(content, ops).board[user].quizAvg, SavedScores(content, ops, user))
  {
    RunConsistent(content, ops);
    RunQuizzes(content, ops, user);
    MeanOfScores(Run(content, ops).quizzes, user, SavedScores(content, ops, user));
    AverageAgrees(Run(content, ops), user);
  }

  lemma AverageAgrees(s: Store, user: string)
    requires BoardAgrees(s, user) && user in s.board
    ensures s.board[user].quizAvg == QuizAvg(s.quizzes, user)
  {
  }

  /** The counts are numbers of table rows: of the user's badges, when no two rows are equal, and of the user's
      completed enrolments. */
  lemma {:induction false} BadgeCountIs(badges: seq<Badge>, user: string)
    requires UniqueBadges(badges)
    ensures BadgeCount(badges, user) == |BadgesOf(badges, user)|
  {
    if badges != [] {
      BadgeCountIs(badges[..|badges| - 1], user);
      BadgesNext(badges, user);
    }
  }

  function BadgesOf(badges: seq<Badge>, user: string): set<Badge> { set b | b in badges && b.user == user }

  lemma BadgesNext(badges: seq<Badge>, user: string)
    requires badges != [] && UniqueBadges(badges)
    ensures var last, before := badges[|badges| - 1], BadgesOf(badges[..|badges| - 1], user);
      BadgesOf(badges, user) == (if last.user == user then before + {last} else before) && last !in before
  {
    assert badges == badges[..|badges| - 1] + [badges[|badges| - 1]];
  }

  lemma CompletedRowsNext(es: seq<Enrollment>, user: string)
    requires es != []
    ensures var n, rows := |es| - 1, CompletedRows(es[..|es| - 1], user);
      CompletedRows(es, user) == (if es[n].user == user && es[n].status == Completed then rows + {n} else rows)
      && n !in rows
  {
  }

  function CompletedRows(es: seq<Enrollment>, user: string): set<nat> {
    set i: nat | i < |es| && es[i].user == user && es[i].status == Completed
  }

  lemma {:induction false} CompletedCountIs(es: seq<Enrollment>, user: string)
    ensures CompletedCount(es, user) == |CompletedRows(es, user)|
  {
    if es != [] {
      var n := |es| - 1;
      CompletedCountIs(es[..n], user);
      CompletedRowsNext(es, user);
    }
  }

  /** Every badge has been earned: by a completed course or a completed challenge of its user. */
  ghost predicate Earned(content: Content, s: Store, b: Badge) {
    || (exists course :: CourseCompleted(s, b.user, course) && b.name == CourseBadge(course))
    || (exists i :: 0 <= i < |s.enrollments| && IsCompletedBy(s.enrollments[i], b.user)
          && b.name == ChallengeBadge(content, s.enrollments[i].challenge))
  }

  /** Every course has a badge name of its own; a known challenge has the name given to it, and an unknown one a name
      of its own. */
  lemma BadgeNames(content: Content, course: string, other: string)
    ensures CourseBadge(course) == CourseBadge(other) <==> course == other
    ensures course in content.challenges ==>
      ChallengeBadge(content, course) == content.challenges[course].badgeName
    ensures course !in content.challenges && other !in content.challenges ==>
      (ChallengeBadge(content, course) == ChallengeBadge(content, other) <==> course == other)
  {
    assert CourseBadge(course)[5..] == course && CourseBadge(other)[5..] == other;
    if course !in content.challenges && other !in content.challenges {
      assert ChallengeBadge(content, course)[6..] == course && ChallengeBadge(content, other)[6..] == other;
    }
  }

  ghost predicate AllEarned(content: Content, s: Store) {
    forall b :: b in s.badges ==> Earned(content, s, b)
  }

  /** What is completed stays completed. */
  ghost predicate KeepsCompleted(s: Store, s': Store) {
    && (forall k :: k in s.progress && s.progress[k].completed ==> k in s'.progress && s'.progress[k].completed)
    && |s.enrollments| <= |s'.enrollments|
    && (forall i :: 0 <= i < |s.enrollments| && s.enrollments[i].status == Completed ==>
          s'.enrollments[i] == s.enrollments[i])
  }

  lemma EarnedStays(content: Content, s: Store, s': Store, b: Badge)
    requires KeepsCompleted(s, s') && Earned(content, s, b)
    ensures Earned(content, s', b)
  {
    if course :| CourseCompleted(s, b.user, course) && b.name == CourseBadge(course) {
      assert CourseCompleted(s', b.user, course);
    } else {
      var i :| 0 <= i < |s.enrollments| && IsCompletedBy(s.enrollments[i], b.user)
               && b.name == ChallengeBadge(content, s.enrollments[i].challenge);
      assert IsCompletedBy(s'.enrollments[i], b.user);
    }
  }

  lemma AllEarnedStays(content: Content, s: Store, s': Store)
    requires AllEarned(content, s) && KeepsCompleted(s, s')
    requires forall b :: b in s'.badges ==> b in s.badges || Earned(content, s', b)
    ensures AllEarned(content, s')
  {
    forall b | b in s'.badges ensures Earned(content, s', b) {
      if b in s.badges { EarnedStays(content, s, s', b); }
    }
  }

  lemma ApplyEarned(content: Content, s: Store, i: nat, value: real)
    requires AllEarned(content, s) && i < |s.enrollments| && s.enrollments[i].status == Active
    ensures AllEarned(content, ApplyValue(content, s, i, value))
  {
    var s' := ApplyValue(content, s, i, value);
    ApplyRecords(content, s, i, value);
    PctLaw(value, s.enrollments[i].target);
    forall b | b in s'.badges ensures b in s.badges || Earned(content, s', b) {
      if b !in s.badges {
        assert IsCompletedBy(s'.enrollments[i], b.user);
      }
    }
    AllEarnedStays(content, s, s');
  }

  lemma {:induction false} SyncEarned(content: Content, s: Store, user: string, metric: Enrollment -> Metric, i: nat)
    requires AllEarned(content, s) && i <= |s.enrollments|
    ensures AllEarned(content, SyncFrom(content, s, user, metric, i))
    decreases |s.enrollments| - i
  {
    if i < |s.enrollments| {
      if Synced(content, s.enrollments[i], user, metric) {
        ApplyEarned(content, s, i, metric(s.enrollments[i]).value);
      }
      SyncEarned(content, SyncOne(content, s, user, metric, i), user, metric, i + 1);
    }
  }

  lemma AdvanceEarned(content: Content, s: Store, user: string, course: string)
    requires AllEarned(content, s)
    ensures AllEarned(content, AdvanceCourse(content, s, user, course).0)
  {
    var s' := AdvanceCourse(content, s, user, course).0;
    forall b | b in s'.badges ensures b in s.badges || Earned(content, s', b) {
      if b !in s.badges {
        assert CourseCompleted(s', user, course) && b == Badge(user, CourseBadge(course));
      }
    }
    AllEarnedStays(content, s, s');
  }

  lemma StepEarned(content: Content, s: Store, op: Op)
    requires AllEarned(content, s)
    ensures AllEarned(content, Step(content, s, op).0)
  {
    match op
    case Advance(user, course) => AdvanceEarned(content, s, user, course);
    case Enroll(user, challenge) => AllEarnedStays(content, s, EnrollChallenge(content, s, user, challenge).0);
    case Update(user, challenge, value) =>
      var active := ActiveRows(s.enrollments, user, challenge);
      if |active| == 1 { ApplyEarned(content, s, active[0], value); }
    case Sync(user, metric) => SyncEarned(content, s, user, metric, 0);
    case Quizzed(user, score) => AllEarnedStays(content, s, SaveQuiz(s, user, score).0);
  }

  /** In every run each badge has been earned. */
  lemma {:induction false} RunBadgesEarned(content: Content, ops: seq<Op>)
    ensures AllEarned(content, Run(content, ops))
  {
    if ops != [] {
      RunBadgesEarned(content, ops[..|ops| - 1]);
      StepEarned(content, Run(content, ops[..|ops| - 1]), ops[|ops| - 1]);
    }
  }

  /** The step inserts a row that refers to its user. */
  predicate NeedsUser(content: Content, s: Store, op: Op) {
    op.Quizzed? || (op.Advance? && op.course in content.courses && (op.user, op.course) !in s.progress)
  }

  /** When each step reports which error, and that it then changes nothing. */
  lemma ErrorsIff(content: Content, ops: seq<Op>, op: Op)
    ensures var s, (s', r) := Run(content, ops), Step(content, Run(content, ops), op);
      && (r != Done ==> s' == s)
      && (r == UnknownCourse <==> op.Advance? && op.course !in content.courses)
      && (r == UnknownChallenge <==> op.Enroll? && op.challenge !in content.challenges)
      && (r == NoActiveChallenge <==> op.Update? && NoneActive(s.enrollments, op.user, op.challenge))
      && (r == ForeignKey <==> NeedsUser(content, s, op) && !HasEnrolled(content, ops, op.user))
  {
    NeverMultipleRows(content, ops, op);
    RunUsers(content, ops, op.user);
  }
}
