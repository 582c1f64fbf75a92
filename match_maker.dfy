/** Questionnaire answers and the compatibility matcher.

    Each participant of an event is compared with every other participant:
    a pair scores the questions on which both agree, divided by the larger of
    the two answer-set sizes, times 100. A participant's scores are averaged
    and the participant is put into one of six bands. */
module MatchMaker {
  import opened Js
  import opened Schema
  import opened Seqs
  import MatcherValidator

  type QuestionId = string

  /** A stored answer; a field absent from the submission is stored as null. */
  datatype Answer = Answer(optionId: Option<string>, scaledValue: Option<real>)

  /** One user's answers, keyed by question. */
  type AnswerSet = map<QuestionId, Answer>

  /** The answer table, keyed by user and then by question. */
  type AnswerDb = map<UserId, AnswerSet>

  /** A participant of the event, as the user directory lists it. */
  datatype Participant = Participant(id: UserId, name: Option<string>)

  /** One line of the response. */
  datatype Entry = Entry(userId: UserId, name: string, avgScore: Number)

  /** The six score bands, from the highest down. */
  datatype Band = Band90 | Band80 | Band70 | Band60 | Band50 | Below50 {
    /** The key of the band in the response. */
    function Label(): string {
      match this
      case Band90 => "90-100"
      case Band80 => "80-90"
      case Band70 => "70-80"
      case Band60 => "60-70"
      case Band50 => "50-60"
      case Below50 => "below-50"
    }
  }

  const AllBands: set<Band> := {Band90, Band80, Band70, Band60, Band50, Below50}

  /** The response: every band's entries. */
  type Groups = map<Band, seq<Entry>>

  datatype MatchError = EventIdNotFound

  /** `save` replaces the schema's issues by one "Invalid answers schema". */
  datatype SaveError = InvalidAnswersSchema

  const UnnamedUser: string := "Unnamed User"

  // ---------------------------------------------------------------------
  // Saving answers

  /** The row an upsert writes for one submitted answer (`?? null`). */
  function ToAnswer(a: MatcherValidator.AnswerInput): Answer {
    Answer(a.optionId, a.scaledValue)
  }

  predicate UsableAnswer(a: Answer) {
    MatcherValidator.Usable(a.optionId, a.scaledValue)
  }

  predicate AllUsable(m: AnswerSet) {
    forall q :: q in m ==> UsableAnswer(m[q])
  }

  /** Every stored answer carries a usable option or a scaled value. */
  ghost predicate UsableDb(db: AnswerDb) {
    forall u :: u in db ==> AllUsable(db[u])
  }

  /** A user's answers; a user without rows has none. */
  function AnswersOf(db: AnswerDb, id: UserId): AnswerSet {
    if id in db then db[id] else map[]
  }

  /** The answers of one user after the batch of upserts, run in order. */
  function Upserted(m: AnswerSet, batch: seq<MatcherValidator.AnswerInput>): (r: AnswerSet)
    ensures m.Keys <= r.Keys
    ensures forall i :: 0 <= i < |batch| ==> batch[i].questionId in r
  {
    if batch == [] then m
    else
      var prev := batch[..|batch| - 1];
      assert forall i :: 0 <= i < |batch| - 1 ==> prev[i] == batch[i];
      Upserted(m, prev)[batch[|batch| - 1].questionId := ToAnswer(batch[|batch| - 1])]
  }

  /** Whether some element of the batch names question q. */
  predicate Submitted(batch: seq<MatcherValidator.AnswerInput>, q: QuestionId) {
    exists i :: 0 <= i < |batch| && batch[i].questionId == q
  }

  /** After the upserts: a submitted question maps to the LAST submitted
      answer for it; every other question keeps its old answer or stays
      absent. */
  lemma {:induction false} UpsertedLastWins(m: AnswerSet, batch: seq<MatcherValidator.AnswerInput>, q: QuestionId)
    ensures q in Upserted(m, batch) <==> q in m || Submitted(batch, q)
    ensures !Submitted(batch, q) && q in m ==> Upserted(m, batch)[q] == m[q]
    ensures forall i :: 0 <= i < |batch| && batch[i].questionId == q
              && (forall j :: i < j < |batch| ==> batch[j].questionId != q)
              ==> Upserted(m, batch)[q] == ToAnswer(batch[i])
  {
    if batch != [] {
      var n := |batch|;
      var prev := batch[..n - 1];
      UpsertedLastWins(m, prev, q);
      assert forall i :: 0 <= i < n - 1 ==> prev[i] == batch[i];
      if batch[n - 1].questionId != q {
        assert Submitted(batch, q) ==> Submitted(prev, q);
      }
    }
  }

  /** One more upsert of the batch. */
  lemma UpsertedStep(m: AnswerSet, batch: seq<MatcherValidator.AnswerInput>, i: nat)
    requires i < |batch|
    ensures Upserted(m, batch[..0]) == m
    ensures Upserted(m, batch[..i + 1]) == Upserted(m, batch[..i])[batch[i].questionId := ToAnswer(batch[i])]
  {
    assert batch[..0] == [];
    var p := batch[..i + 1];
    assert p[..|p| - 1] == batch[..i] && p[|p| - 1] == batch[i];
  }

  /** A second write to a key replaces the first. */
  lemma UpdateTwice<K, V>(m: map<K, V>, k: K, v: V, w: V)
    ensures m[k := v][k := w] == m[k := w]
  {
  }

  /** Upserting validated answers keeps every stored answer usable. */
  lemma {:induction false} UpsertedUsable(m: AnswerSet, batch: seq<MatcherValidator.AnswerInput>)
    requires AllUsable(m)
    requires forall i :: 0 <= i < |batch| ==> MatcherValidator.ValidAnswer(batch[i])
    ensures AllUsable(Upserted(m, batch))
  {
    if batch != [] {
      UpsertedUsable(m, batch[..|batch| - 1]);
    }
  }

  /** The answer table, which `save` upserts into. */
  class AnswerStore {
    var answers: AnswerDb

    constructor ()
      ensures answers == map[]
    {
      answers := map[];
    }

    /** `save`: validate the submission, then upsert each answer for the
        caller, one after the other. */
    method Save(userId: UserId, body: seq<MatcherValidator.AnswerInput>) returns (r: Result<(), SaveError>)
      modifies this
      ensures r.Ok? <==> MatcherValidator.ValidBatch(body)
      ensures r.Err? ==> r.error == InvalidAnswersSchema && answers == old(answers)
      ensures r.Ok? ==> answers == old(answers)[userId := Upserted(AnswersOf(old(answers), userId), body)]
      ensures old(UsableDb(answers)) ==> UsableDb(answers)
    {
      var parsed := MatcherValidator.SafeParse(body);
      if parsed.Err? {
        return Err(InvalidAnswersSchema);
      }
      var i := 0;
      while i < |body|
        invariant 0 <= i <= |body|
        invariant i == 0 ==> answers == old(answers)
        invariant i > 0 ==> answers == old(answers)[userId := Upserted(AnswersOf(old(answers), userId), body[..i])]
      {
        var a := body[i];
        ghost var base := AnswersOf(old(answers), userId);
        UpsertedStep(base, body, i);
        if i > 0 {
          UpdateTwice(old(answers), userId, Upserted(base, body[..i]), Upserted(base, body[..i + 1]));
        }
        answers := answers[userId := AnswersOf(answers, userId)[a.questionId := ToAnswer(a)]];
        i := i + 1;
      }
      TakeAll(body);
      if old(UsableDb(answers)) {
        UpsertedUsable(AnswersOf(old(answers), userId), body);
      }
      r := Ok(());
    }
  }

  // ---------------------------------------------------------------------
  // Scoring a pair

  /** Question `q` counts for a pair when A's option is non-null, non-empty
      and equal to B's, or both scaled values are non-null and equal. */
  predicate IsMatch(a: Answer, b: Answer)
    ensures IsMatch(a, b) ==> UsableAnswer(a) && UsableAnswer(b)
  {
    (TruthyString(a.optionId) && a.optionId == b.optionId)
    || (a.scaledValue.Some? && b.scaledValue.Some? && a.scaledValue.value == b.scaledValue.value)
  }

  /** The questions both users answered and agree on. */
  function MatchingQuestions(a: AnswerSet, b: AnswerSet): (r: set<QuestionId>)
    ensures r <= a.Keys && r <= b.Keys
  {
    set q | q in a.Keys && q in b.Keys && IsMatch(a[q], b[q])
  }

  /** The denominator: the larger answer set. */
  function TotalQuestions(a: AnswerSet, b: AnswerSet): nat {
    MaxNat(|a.Keys|, |b.Keys|)
  }

  /** `(matches / totalQ) * 100`; zero over zero is NaN. */
  function Percent(matches: nat, total: nat): (r: Number)
    ensures r.NaN? <==> total == 0
    ensures r.Num? ==> r.v * total as real == matches as real * 100.0
  {
    if total == 0 then NaN else Num(matches as real / total as real * 100.0)
  }

  /** The score of one comparison. */
  function PairScore(a: AnswerSet, b: AnswerSet): Number {
    Percent(|MatchingQuestions(a, b)|, TotalQuestions(a, b))
  }

  lemma SubsetCard<T>(s: set<T>, t: set<T>)
    requires s <= t
    ensures |s| <= |t|
  {
    assert t == s + (t - s);
  }

  /** matches <= totalQ, so a defined pair score lies in [0, 100]; the score
      is undefined exactly when both answer sets are empty. */
  lemma PairScoreRange(a: AnswerSet, b: AnswerSet)
    ensures |MatchingQuestions(a, b)| <= TotalQuestions(a, b)
    ensures PairScore(a, b).NaN? <==> |a.Keys| == 0 && |b.Keys| == 0
    ensures PairScore(a, b).Num? ==> 0.0 <= PairScore(a, b).v <= 100.0
  {
    SubsetCard(MatchingQuestions(a, b), a.Keys);
    PercentRange(|MatchingQuestions(a, b)|, TotalQuestions(a, b));
  }

  /** A share of m out of t >= m is undefined only for t = 0, and otherwise
      lies in [0, 100]. */
  lemma PercentRange(m: nat, t: nat)
    requires m <= t
    ensures Percent(m, t).NaN? <==> t == 0
    ensures Percent(m, t).Num? ==> 0.0 <= Percent(m, t).v <= 100.0
  {
    if t > 0 {
      var q := m as real / t as real;
      assert q <= 1.0 by {
        assert (m as real) <= (t as real);
      }
    }
  }

  /** The pair score does not depend on the direction of the comparison. */
  lemma PairScoreSymmetric(a: AnswerSet, b: AnswerSet)
    ensures PairScore(a, b) == PairScore(b, a)
  {
    assert MatchingQuestions(a, b) == MatchingQuestions(b, a);
  }

  /** Two users with the same non-empty answers, each usable as the
      validator demands, score exactly 100. */
  lemma IdenticalAnswersScoreFull(a: AnswerSet)
    requires |a.Keys| > 0
    requires AllUsable(a)
    ensures PairScore(a, a) == Num(100.0)
  {
    assert MatchingQuestions(a, a) == a.Keys;
    var t := |a.Keys| as real;
    assert t / t == 1.0;
  }

  /** An empty answer set scores 0 against a non-empty one. */
  lemma EmptyAnswersScoreZero(a: AnswerSet, b: AnswerSet)
    requires |a.Keys| == 0 && |b.Keys| > 0
    ensures PairScore(a, b) == Num(0.0)
  {
    SubsetCard(MatchingQuestions(a, b), a.Keys);
    PercentZero(TotalQuestions(a, b));
  }

  lemma PercentZero(t: nat)
    requires t > 0
    ensures Percent(0, t) == Num(0.0)
  {
    assert 0.0 / t as real == 0.0;
  }

  /** Counts the questions of `a` that match in `b`, one question at a time. */
  method CountMatches(a: AnswerSet, b: AnswerSet) returns (matches: nat)
    ensures matches == |MatchingQuestions(a, b)|
  {
    matches := 0;
    var remaining := a.Keys;
    ghost var found: set<QuestionId> := {};
    while remaining != {}
      invariant remaining <= a.Keys
      invariant forall x :: x in found <==> x in a && x !in remaining && x in b && IsMatch(a[x], b[x])
      invariant matches == |found|
      decreases remaining
    {
      var q :| q in remaining;
      if q in b && IsMatch(a[q], b[q]) {
        assert q !in found;
        matches := matches + 1;
        found := found + {q};
      }
      remaining := remaining - {q};
    }
    assert found == MatchingQuestions(a, b);
  }

  // ---------------------------------------------------------------------
  // A participant's average

  /** How many entries of `users` are compared with user `self`. */
  function CompareCount(self: UserId, users: seq<Participant>): (r: nat)
    ensures (forall i :: 0 <= i < |users| ==> users[i].id != self) ==> r == |users|
  {
    if users == [] then 0
    else
      var prev := users[..|users| - 1];
      assert forall i :: 0 <= i < |users| - 1 ==> prev[i] == users[i];
      CompareCount(self, prev) + (if users[|users| - 1].id == self then 0 else 1)
  }

  /** The running `totalScore` after comparing with every entry of `users`. */
  function TotalScore(self: UserId, a: AnswerSet, users: seq<Participant>, db: AnswerDb): (r: Number)
    ensures CompareCount(self, users) == 0 ==> r == Num(0.0)
  {
    if users == [] then Num(0.0)
    else
      var prev := TotalScore(self, a, users[..|users| - 1], db);
      var other := users[|users| - 1];
      if other.id == self then prev else Add(prev, PairScore(a, AnswersOf(db, other.id)))
  }

  /** `compareCount > 0 ? totalScore / compareCount : 0`. */
  function AvgScore(p: Participant, users: seq<Participant>, db: AnswerDb): Number {
    var n := CompareCount(p.id, users);
    var total := TotalScore(p.id, AnswersOf(db, p.id), users, db);
    if n > 0 then DivCount(total, n) else Num(0.0)
  }

  /** A user is never compared with itself: entries with its own id add
      nothing, so a participant present in the list has fewer than |users|
      comparisons. */
  lemma {:induction false} CompareCountExcludesSelf(p: Participant, users: seq<Participant>)
    requires p in users
    ensures CompareCount(p.id, users) < |users|
  {
    var n := |users|;
    if users[n - 1] == p {
      CompareCountAtMost(p.id, users[..n - 1]);
    } else {
      assert p in users[..n - 1] by {
        var k :| 0 <= k < n && users[k] == p;
        assert users[..n - 1][k] == p;
      }
      CompareCountExcludesSelf(p, users[..n - 1]);
    }
  }

  lemma {:induction false} CompareCountAtMost(self: UserId, users: seq<Participant>)
    ensures CompareCount(self, users) <= |users|
  {
    if users != [] {
      CompareCountAtMost(self, users[..|users| - 1]);
    }
  }

  /** The running total stays within [0, 100 × compareCount]. */
  lemma {:induction false} TotalScoreRange(self: UserId, a: AnswerSet, users: seq<Participant>, db: AnswerDb)
    ensures TotalScore(self, a, users, db).Num? ==>
              0.0 <= TotalScore(self, a, users, db).v <= 100.0 * CompareCount(self, users) as real
  {
    if users != [] {
      var other := users[|users| - 1];
      TotalScoreRange(self, a, users[..|users| - 1], db);
      PairScoreRange(a, AnswersOf(db, other.id));
    }
  }

  /** The running total is NaN exactly when some compared user has no answers
      while `a` has none either. */
  lemma {:induction false} TotalScoreNaN(self: UserId, a: AnswerSet, users: seq<Participant>, db: AnswerDb)
    ensures TotalScore(self, a, users, db).NaN? <==>
              |a.Keys| == 0 && exists j :: 0 <= j < |users| && users[j].id != self && |AnswersOf(db, users[j].id).Keys| == 0
  {
    if users != [] {
      var n := |users|;
      TotalScoreNaN(self, a, users[..n - 1], db);
      PairScoreRange(a, AnswersOf(db, users[n - 1].id));
      EmptyPartnerStep(self, users, users[..n - 1], db);
    }
  }

  /** Some other user of the list has no answers exactly when one of the
      prefix does or the last one does. */
  lemma EmptyPartnerStep(self: UserId, users: seq<Participant>, prev: seq<Participant>, db: AnswerDb)
    requires users != [] && prev == users[..|users| - 1]
    ensures var last := users[|users| - 1];
            (exists j :: 0 <= j < |users| && users[j].id != self && |AnswersOf(db, users[j].id).Keys| == 0) <==>
            (exists j :: 0 <= j < |prev| && prev[j].id != self && |AnswersOf(db, prev[j].id).Keys| == 0)
            || (last.id != self && |AnswersOf(db, last.id).Keys| == 0)
  {
    assert forall j :: 0 <= j < |prev| ==> prev[j] == users[j];
  }

  /** A defined average lies in [0, 100]; an undefined pair poisons it. */
  lemma AvgScoreRange(p: Participant, users: seq<Participant>, db: AnswerDb)
    ensures AvgScore(p, users, db).Num? ==> 0.0 <= AvgScore(p, users, db).v <= 100.0
    ensures AvgScore(p, users, db).NaN? <==>
              |AnswersOf(db, p.id).Keys| == 0
              && exists j :: 0 <= j < |users| && users[j].id != p.id && |AnswersOf(db, users[j].id).Keys| == 0
  {
    var a := AnswersOf(db, p.id);
    TotalScoreRange(p.id, a, users, db);
    TotalScoreNaN(p.id, a, users, db);
    var n := CompareCount(p.id, users);
    if n == 0 {
      CompareCountZero(p.id, users);
    } else {
      var t := TotalScore(p.id, a, users, db);
      if t.Num? {
        MeanBound(t.v, n);
      }
    }
  }

  /** A total of n scores in [0, 100] has its mean in [0, 100]. */
  lemma MeanBound(total: real, n: nat)
    requires n > 0 && 0.0 <= total <= 100.0 * n as real
    ensures 0.0 <= total / n as real <= 100.0
  {
    var avg := total / n as real;
    assert avg * n as real == total;
    if avg > 100.0 {
      assert avg * n as real > 100.0 * n as real;
    }
  }

  lemma {:induction false} CompareCountZero(self: UserId, users: seq<Participant>)
    ensures CompareCount(self, users) == 0 <==> forall j :: 0 <= j < |users| ==> users[j].id == self
  {
    if users != [] {
      var n := |users|;
      CompareCountZero(self, users[..n - 1]);
      assert forall j :: 0 <= j < n - 1 ==> users[..n - 1][j] == users[j];
    }
  }

  /** With nobody else to compare with, the average is 0. */
  lemma SoleParticipantScoresZero(p: Participant, db: AnswerDb)
    ensures AvgScore(p, [p], db) == Num(0.0)
  {
    assert [p][..0] == [];
    assert CompareCount(p.id, [p]) == 0;
  }

  /** One comparison: the matching questions over the larger answer set. */
  method ComparePair(a: AnswerSet, b: AnswerSet) returns (score: Number)
    ensures score == PairScore(a, b)
  {
    var matches := CountMatches(a, b);
    var totalQ := MaxNat(|a.Keys|, |b.Keys|);
    score := Percent(matches, totalQ);
  }

  /** One more entry of the user list: the running totals after it. */
  lemma ScoreStep(self: UserId, a: AnswerSet, users: seq<Participant>, db: AnswerDb, j: nat)
    requires j < |users|
    ensures var other := users[j];
            && TotalScore(self, a, users[..j + 1], db)
               == (if other.id == self then TotalScore(self, a, users[..j], db)
                   else Add(TotalScore(self, a, users[..j], db), PairScore(a, AnswersOf(db, other.id))))
            && CompareCount(self, users[..j + 1])
               == CompareCount(self, users[..j]) + (if other.id == self then 0 else 1)
  {
    var prefix := users[..j + 1];
    assert prefix[..|prefix| - 1] == users[..j] && prefix[|prefix| - 1] == users[j];
  }

  /** Computes one participant's average, comparing with each other user. */
  method ScoreUser(p: Participant, users: seq<Participant>, db: AnswerDb) returns (avg: Number)
    ensures avg == AvgScore(p, users, db)
  {
    var answersA := AnswersOf(db, p.id);
    var totalScore := Num(0.0);
    var compareCount := 0;
    var j := 0;
    while j < |users|
      invariant 0 <= j <= |users|
      invariant totalScore == TotalScore(p.id, answersA, users[..j], db)
      invariant compareCount == CompareCount(p.id, users[..j])
    {
      var other := users[j];
      ScoreStep(p.id, answersA, users, db, j);
      if other.id != p.id {
        var score := ComparePair(answersA, AnswersOf(db, other.id));
        totalScore := Add(totalScore, score);
        compareCount := compareCount + 1;
      }
      j := j + 1;
    }
    TakeAll(users);
    avg := if compareCount > 0 then DivCount(totalScore, compareCount) else Num(0.0);
  }

  // ---------------------------------------------------------------------
  // Bands

  /** The `>=` chain: NaN fails every comparison and lands in "below-50". */
  function BandOf(avg: Number): (r: Band)
    ensures r == Below50 <==> avg.NaN? || avg.v < 50.0
    ensures avg.Num? && r != Below50 ==> Floor(r) <= avg.v && (avg.v < Ceiling(r) || r == Band90)
  {
    if AtLeast(avg, 90.0) then Band90
    else if AtLeast(avg, 80.0) then Band80
    else if AtLeast(avg, 70.0) then Band70
    else if AtLeast(avg, 60.0) then Band60
    else if AtLeast(avg, 50.0) then Band50
    else Below50
  }

  /** The lowest score of a band's half-open interval. */
  function Floor(b: Band): real {
    match b
    case Band90 => 90.0
    case Band80 => 80.0
    case Band70 => 70.0
    case Band60 => 60.0
    case Band50 => 50.0
    case Below50 => 0.0
  }

  /** The first score above a band, 10 above its floor ("below-50" ends at 50). */
  function Ceiling(b: Band): real {
    if b == Below50 then 50.0 else Floor(b) + 10.0
  }

  /** A score in [0, 100] is placed in band b exactly when it lies in
      [Floor(b), Ceiling(b)), except that 100 belongs to "90-100"; so a
      boundary value goes to the higher band. NaN goes to "below-50". */
  lemma BandOfInterval(v: real, b: Band)
    requires 0.0 <= v <= 100.0
    ensures BandOf(Num(v)) == b <==> Floor(b) <= v && (v < Ceiling(b) || b == Band90)
    ensures BandOf(NaN) == Below50
  {
  }

  /** The response entry for a participant. */
  function EntryOf(p: Participant, users: seq<Participant>, db: AnswerDb): Entry {
    Entry(p.id, p.name.OrElse(UnnamedUser), AvgScore(p, users, db))
  }

  /** The entries of band b, in the order `ps` lists the participants; each
      average is taken over all of `users`. */
  function Group(ps: seq<Participant>, users: seq<Participant>, db: AnswerDb, b: Band): (r: seq<Entry>)
    ensures |r| <= |ps|
    ensures forall e :: e in r ==> BandOf(e.avgScore) == b
  {
    if ps == [] then []
    else
      var e := EntryOf(ps[|ps| - 1], users, db);
      Group(ps[..|ps| - 1], users, db, b) + (if BandOf(e.avgScore) == b then [e] else [])
  }

  /** The sizes of the six groups. */
  function GroupSizes(ps: seq<Participant>, users: seq<Participant>, db: AnswerDb): nat {
    |Group(ps, users, db, Band90)| + |Group(ps, users, db, Band80)| + |Group(ps, users, db, Band70)|
    + |Group(ps, users, db, Band60)| + |Group(ps, users, db, Band50)| + |Group(ps, users, db, Below50)|
  }

  /** Appending a participant grows exactly the group of its own band. */
  lemma GroupStep(ps: seq<Participant>, users: seq<Participant>, db: AnswerDb, b: Band)
    requires ps != []
    ensures var e := EntryOf(ps[|ps| - 1], users, db);
            Group(ps, users, db, b) == Group(ps[..|ps| - 1], users, db, b) + (if BandOf(e.avgScore) == b then [e] else [])
  {
  }

  /** The band of each participant, in list order. */
  function BandsOf(ps: seq<Participant>, users: seq<Participant>, db: AnswerDb): (r: seq<Band>)
    ensures |r| == |ps|
    ensures forall i :: 0 <= i < |ps| ==> r[i] == BandOf(EntryOf(ps[i], users, db).avgScore)
  {
    seq(|ps|, i requires 0 <= i < |ps| => BandOf(EntryOf(ps[i], users, db).avgScore))
  }

  /** The positions of band b in `bands`, ascending. */
  function Positions(bands: seq<Band>, b: Band): (r: seq<nat>)
    ensures forall k :: 0 <= k < |r| ==> r[k] < |bands| && bands[r[k]] == b
    ensures forall k, l :: 0 <= k < l < |r| ==> r[k] < r[l]
    ensures forall i :: 0 <= i < |bands| && bands[i] == b ==> i in r
  {
    if bands == [] then []
    else
      var n := |bands| - 1;
      var prev := Positions(bands[..n], b);
      assert forall k :: 0 <= k < |prev| ==> bands[..n][prev[k]] == bands[prev[k]];
      assert forall i :: 0 <= i < n ==> bands[..n][i] == bands[i];
      prev + (if bands[n] == b then [n] else [])
  }

  /** The entry of each participant, in list order. */
  function EntriesOf(ps: seq<Participant>, users: seq<Participant>, db: AnswerDb): (r: seq<Entry>)
    ensures |r| == |ps|
    ensures forall i :: 0 <= i < |ps| ==> r[i] == EntryOf(ps[i], users, db)
  {
    seq(|ps|, i requires 0 <= i < |ps| => EntryOf(ps[i], users, db))
  }

  /** Band b's group is the subsequence of the participants' entries picked
      by the ascending positions of band b: it keeps input order, leaves no
      participant of band b out and takes nobody of another band. */
  lemma {:induction false} GroupIsSubsequence(ps: seq<Participant>, users: seq<Participant>, db: AnswerDb, b: Band)
    ensures |Group(ps, users, db, b)| == |Positions(BandsOf(ps, users, db), b)|
    ensures forall k :: 0 <= k < |Group(ps, users, db, b)| ==>
              Group(ps, users, db, b)[k] == EntriesOf(ps, users, db)[Positions(BandsOf(ps, users, db), b)[k]]
  {
    if ps != [] {
      var n := |ps| - 1;
      var bands, entries := BandsOf(ps, users, db), EntriesOf(ps, users, db);
      GroupIsSubsequence(ps[..n], users, db, b);
      GroupLast(ps, users, db, b);
      PositionsStep(bands, b);
      PickStep(Group(ps[..n], users, db, b), Positions(bands[..n], b), entries[..n], entries, bands[n] == b,
               Group(ps, users, db, b), Positions(bands, b));
    } else {
      assert BandsOf(ps, users, db) == [];
    }
  }

  /** `GroupStep` in terms of the bands and the entries of the list, whose
      prefixes are those of the shorter list. */
  lemma GroupLast(ps: seq<Participant>, users: seq<Participant>, db: AnswerDb, b: Band)
    requires ps != []
    ensures BandsOf(ps, users, db)[..|ps| - 1] == BandsOf(ps[..|ps| - 1], users, db)
    ensures EntriesOf(ps, users, db)[..|ps| - 1] == EntriesOf(ps[..|ps| - 1], users, db)
    ensures Group(ps, users, db, b) == Group(ps[..|ps| - 1], users, db, b)
              + (if BandsOf(ps, users, db)[|ps| - 1] == b then [EntriesOf(ps, users, db)[|ps| - 1]] else [])
  {
    GroupStep(ps, users, db, b);
  }

  /** The last position of `bands` joins the positions of band b iff it is in b. */
  lemma PositionsStep(bands: seq<Band>, b: Band)
    requires bands != []
    ensures Positions(bands, b) == Positions(bands[..|bands| - 1], b) + (if bands[|bands| - 1] == b then [|bands| - 1] else [])
  {
  }

  /** Picking one more entry, at the last position, keeps the picked entries
      in step with the picked positions. */
  lemma PickStep(g: seq<Entry>, idx: seq<nat>, prefix: seq<Entry>, es: seq<Entry>, pick: bool,
                 g': seq<Entry>, idx': seq<nat>)
    requires es != [] && prefix == es[..|es| - 1] && |g| == |idx|
    requires forall k :: 0 <= k < |idx| ==> idx[k] < |prefix| && g[k] == prefix[idx[k]]
    requires g' == g + (if pick then [es[|es| - 1]] else [])
    requires idx' == idx + (if pick then [|es| - 1] else [])
    ensures |g'| == |idx'|
    ensures forall k :: 0 <= k < |g'| ==> g'[k] == es[idx'[k]]
  {
  }

  /** Every participant is placed in exactly one band: the six group sizes
      add up to the number of participants. */
  lemma {:induction false} GroupSizesSum(ps: seq<Participant>, users: seq<Participant>, db: AnswerDb)
    ensures GroupSizes(ps, users, db) == |ps|
  {
    if ps != [] {
      var n := |ps|;
      GroupSizesSum(ps[..n - 1], users, db);
      GroupStep(ps, users, db, Band90);
      GroupStep(ps, users, db, Band80);
      GroupStep(ps, users, db, Band70);
      GroupStep(ps, users, db, Band60);
      GroupStep(ps, users, db, Band50);
      GroupStep(ps, users, db, Below50);
    }
  }

  /** Each participant's entry is in the group of its own band (and, by
      Group's contract, in no group of another band). */
  lemma {:induction false} EveryParticipantPlaced(ps: seq<Participant>, users: seq<Participant>, db: AnswerDb, i: nat)
    requires i < |ps|
    ensures EntryOf(ps[i], users, db) in Group(ps, users, db, BandOf(EntryOf(ps[i], users, db).avgScore))
  {
    var n := |ps|;
    if i == n - 1 {
      PlacedLast(ps, users, db);
    } else {
      assert ps[..n - 1][i] == ps[i];
      EveryParticipantPlaced(ps[..n - 1], users, db, i);
      PlacedKept(ps, users, db, EntryOf(ps[i], users, db), BandOf(EntryOf(ps[i], users, db).avgScore));
    }
  }

  lemma PlacedLast(ps: seq<Participant>, users: seq<Participant>, db: AnswerDb)
    requires ps != []
    ensures EntryOf(ps[|ps| - 1], users, db) in Group(ps, users, db, BandOf(EntryOf(ps[|ps| - 1], users, db).avgScore))
  {
    GroupStep(ps, users, db, BandOf(EntryOf(ps[|ps| - 1], users, db).avgScore));
  }

  lemma PlacedKept(ps: seq<Participant>, users: seq<Participant>, db: AnswerDb, e: Entry, b: Band)
    requires ps != []
    requires e in Group(ps[..|ps| - 1], users, db, b)
    ensures e in Group(ps, users, db, b)
  {
    GroupStep(ps, users, db, b);
  }

  /** A missing name is shown as "Unnamed User"; a present one, even empty,
      is kept. */
  lemma EntryName(p: Participant, users: seq<Participant>, db: AnswerDb)
    ensures EntryOf(p, users, db).name == if p.name.None? then UnnamedUser else p.name.value
  {
  }

  /** The six groups for the participants `ps`. */
  function GroupsOf(ps: seq<Participant>, users: seq<Participant>, db: AnswerDb): Groups {
    map b | b in AllBands :: Group(ps, users, db, b)
  }

  /** Pushing `e` onto the list of `band` changes that list only. */
  lemma PushStep(prev: Groups, next: Groups, band: Band, e: Entry)
    requires prev.Keys == AllBands && next.Keys == AllBands
    requires forall b :: b in AllBands ==> next[b] == prev[b] + (if b == band then [e] else [])
    ensures next == prev[band := prev[band] + [e]]
  {
    var pushed := prev[band := prev[band] + [e]];
    assert pushed.Keys == next.Keys;
    forall b | b in pushed
      ensures pushed[b] == next[b]
    {
      if b != band {
        assert prev[b] + [] == prev[b];
      }
    }
  }

  /** Appending a participant appends its entry to its band's group only. */
  lemma GroupsStep(ps: seq<Participant>, users: seq<Participant>, db: AnswerDb)
    requires ps != []
    ensures var e := EntryOf(ps[|ps| - 1], users, db);
            var prev := GroupsOf(ps[..|ps| - 1], users, db);
            GroupsOf(ps, users, db) == prev[BandOf(e.avgScore) := prev[BandOf(e.avgScore)] + [e]]
  {
    var e := EntryOf(ps[|ps| - 1], users, db);
    var prev := GroupsOf(ps[..|ps| - 1], users, db);
    var next := GroupsOf(ps, users, db);
    forall b | b in AllBands
      ensures next[b] == prev[b] + (if b == BandOf(e.avgScore) then [e] else [])
    {
      GroupStep(ps, users, db, b);
    }
    PushStep(prev, next, BandOf(e.avgScore), e);
  }

  /** The loop step of `getSimilarMatches`: the groups of one more prefix. */
  lemma GroupsPrefixStep(users: seq<Participant>, db: AnswerDb, i: nat)
    requires i < |users|
    ensures var e := EntryOf(users[i], users, db);
            var prev := GroupsOf(users[..i], users, db);
            GroupsOf(users[..i + 1], users, db) == prev[BandOf(e.avgScore) := prev[BandOf(e.avgScore)] + [e]]
  {
    var ps := users[..i + 1];
    assert ps[..|ps| - 1] == users[..i] && ps[|ps| - 1] == users[i];
    GroupsStep(ps, users, db);
  }

  /** `getSimilarMatches`: an empty event id is rejected; otherwise every
      participant's entry is appended to the group of its band. */
  method GetSimilarMatches(eventId: EventId, users: seq<Participant>, db: AnswerDb) returns (r: Result<Groups, MatchError>)
    ensures r.Err? <==> eventId == ""
    ensures r.Ok? ==> r.value.Keys == AllBands
    ensures r.Ok? ==> forall b :: b in AllBands ==> r.value[b] == Group(users, users, db, b)
  {
    if eventId == "" {
      return Err(EventIdNotFound);
    }
    var groups: Groups := map[Band90 := [], Band80 := [], Band70 := [], Band60 := [], Band50 := [], Below50 := []];
    assert groups == GroupsOf(users[..0], users, db);
    var i := 0;
    while i < |users|
      invariant 0 <= i <= |users|
      invariant groups == GroupsOf(users[..i], users, db)
    {
      var user := users[i];
      var avgScore := ScoreUser(user, users, db);
      var safeName := user.name.OrElse(UnnamedUser);
      var band := BandOf(avgScore);
      assert EntryOf(user, users, db) == Entry(user.id, safeName, avgScore);
      GroupsPrefixStep(users, db, i);
      groups := groups[band := groups[band] + [Entry(user.id, safeName, avgScore)]];
      i := i + 1;
    }
    TakeAll(users);
    r := Ok(groups);
  }

  // An example: U1 = {q1: optA, q2: 3}, U2 = {q1: optA, q2: 5},
  // U3 = {q1: optB}.
  const ExampleU1: AnswerSet := map["q1" := Answer(Some("optA"), None), "q2" := Answer(None, Some(3.0))]
  const ExampleU2: AnswerSet := map["q1" := Answer(Some("optA"), None), "q2" := Answer(None, Some(5.0))]
  const ExampleU3: AnswerSet := map["q1" := Answer(Some("optB"), None)]
  const ExampleDb: AnswerDb := map["U1" := ExampleU1, "U2" := ExampleU2, "U3" := ExampleU3]
  const ExampleUsers: seq<Participant> := [Participant("U1", None), Participant("U2", None), Participant("U3", None)]

  /** U1 and U2 agree on q1 only, out of two questions: 50. U1 and U3 agree
      on nothing, out of two questions: 0. */
  lemma ExamplePairScores()
    ensures PairScore(ExampleU1, ExampleU2) == Num(50.0)
    ensures PairScore(ExampleU1, ExampleU3) == Num(0.0)
  {
    ExampleCounts();
    assert Percent(1, 2) == Num(50.0);
    assert Percent(0, 2) == Num(0.0);
  }

  lemma ExampleCounts()
    ensures |MatchingQuestions(ExampleU1, ExampleU2)| == 1 && TotalQuestions(ExampleU1, ExampleU2) == 2
    ensures |MatchingQuestions(ExampleU1, ExampleU3)| == 0 && TotalQuestions(ExampleU1, ExampleU3) == 2
  {
    assert ExampleU1.Keys == {"q1", "q2"} && ExampleU2.Keys == {"q1", "q2"} && ExampleU3.Keys == {"q1"};
    assert |ExampleU1.Keys| == 2 && |ExampleU2.Keys| == 2 && |ExampleU3.Keys| == 1;
    assert MatchingQuestions(ExampleU1, ExampleU2) == {"q1"};
    assert MatchingQuestions(ExampleU1, ExampleU3) == {};
  }

  /** U1's running total over the three users is 0 + 50 + 0, from two
      comparisons. */
  lemma ExampleTotal()
    ensures TotalScore("U1", ExampleU1, ExampleUsers, ExampleDb) == Num(50.0)
    ensures CompareCount("U1", ExampleUsers) == 2
  {
    ExamplePairScores();
    var us := ExampleUsers;
    var a := ExampleU1;
    assert us[..0] == [];
    assert AnswersOf(ExampleDb, "U2") == ExampleU2;
    assert AnswersOf(ExampleDb, "U3") == ExampleU3;
    ScoreStep("U1", a, us, ExampleDb, 0);
    ScoreStep("U1", a, us, ExampleDb, 1);
    assert TotalScore("U1", a, us[..2], ExampleDb) == Num(50.0) && CompareCount("U1", us[..2]) == 1;
    ScoreStep("U1", a, us, ExampleDb, 2);
    TakeAll(us);
  }

  /** U1's average is (50 + 0) / 2 = 25, which is placed below 50. */
  lemma ExampleAverage()
    ensures AvgScore(ExampleUsers[0], ExampleUsers, ExampleDb) == Num(25.0)
    ensures BandOf(AvgScore(ExampleUsers[0], ExampleUsers, ExampleDb)) == Below50
  {
    ExampleTotal();
    assert AnswersOf(ExampleDb, "U1") == ExampleU1;
  }
}
