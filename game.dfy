/** Levels of the gamification scheme: a user's score is computed from their
    registrations and badges, and the user is assigned the first level, in
    ascending order of minimum score, whose score range contains it. */
module Game {
  import opened Js
  import opened Schema
  import opened Seqs

  type LevelId = string

  /** A row of the level table. Every threshold except `minScore` is nullable. */
  datatype Level = Level(
    id: LevelId,
    name: string,
    minScore: int,
    maxScore: Option<int>,
    dinners: Option<int>,
    hosted: Option<int>,
    reviews: Option<int>,
    avgRating: Option<real>,
    minReferals: Option<int>,
    minTagCount: Option<int>,
    commentFeedLength: Option<int>,
    totalBadges: Option<int>,
    plan: Plan)

  /** The parsed body of a level creation; `None` is an absent field. */
  datatype LevelInput = LevelInput(
    name: string,
    minScore: int,
    maxScore: Option<int>,
    dinners: Option<int>,
    hosted: Option<int>,
    reviews: Option<int>,
    avgRating: Option<real>,
    minReferals: Option<int>,
    minTagCount: Option<int>,
    commentFeedLength: Option<int>,
    totalBadges: Option<int>,
    plan: Plan)

  /** What `assignLevel` reads and writes of a user. */
  datatype Player = Player(
    score: int,
    registrations: seq<RegistrationStatus>,
    badges: Option<seq<Badge>>,
    levelId: Option<LevelId>)

  datatype GameError = InvalidFormat | UserIdNotFound | UserNotFound | NoLevelsConfigured

  /** The two successful answers of `assignLevel`. */
  datatype Assignment = Assigned(level: Level) | NoLevel(score: nat)

  // ---------------------------------------------------------------------
  // Score and level search

  /** `registrations.length * 10 + (badges?.length || 0) * 5`: every
      registration counts, whatever its status. */
  function NewScore(p: Player): (r: nat)
    ensures r == 0 <==> p.registrations == [] && (p.badges.None? || p.badges.value == [])
  {
    |p.registrations| * 10 + (if p.badges.Some? then |p.badges.value| else 0) * 5
  }

  /** Each registration adds 10 whatever its status, each badge 5, and a
      missing badge list counts as none. */
  lemma NewScoreSteps(p: Player, s: RegistrationStatus, b: Badge)
    ensures NewScore(p.(registrations := p.registrations + [s])) == NewScore(p) + 10
    ensures p.badges.Some? ==> NewScore(p.(badges := Some(p.badges.value + [b]))) == NewScore(p) + 5
    ensures NewScore(p.(badges := None)) == NewScore(p.(badges := Some([]))) == 10 * |p.registrations|
    ensures NewScore(p) % 5 == 0
  {
  }

  /** `score >= minScore && score <= maxScore`; JavaScript compares a null
      `maxScore` as 0. */
  predicate Contains(l: Level, score: int)
    ensures Contains(l, score) ==> l.minScore <= l.maxScore.OrElse(0)
  {
    l.minScore <= score && score <= l.maxScore.OrElse(0)
  }

  /** `Array.prototype.find`: the first level whose range contains `score`. */
  function FindLevel(levels: seq<Level>, score: int): (r: Option<Level>)
    ensures r.None? <==> forall i :: 0 <= i < |levels| ==> !Contains(levels[i], score)
    ensures r.Some? ==> exists k :: 0 <= k < |levels| && levels[k] == r.value
                          && Contains(levels[k], score)
                          && forall j :: 0 <= j < k ==> !Contains(levels[j], score)
  {
    if levels == [] then None
    else if Contains(levels[0], score) then Some(levels[0])
    else
      var r := FindLevel(levels[1..], score);
      assert r.Some? ==> exists k :: 0 <= k < |levels| - 1 && levels[1..][k] == r.value
                          && Contains(levels[1..][k], score)
                          && forall j :: 0 <= j < k ==> !Contains(levels[1..][j], score);
      r
  }

  predicate SortedByMinScore(s: seq<Level>) {
    forall i, j :: 0 <= i < j < |s| ==> s[i].minScore <= s[j].minScore
  }

  /** Inserts `x` before the first level whose minimum score is not smaller. */
  function Insert(x: Level, s: seq<Level>): (r: seq<Level>)
    requires SortedByMinScore(s)
    ensures |r| == |s| + 1
    ensures multiset(r) == multiset(s) + multiset{x}
    ensures forall l :: l in r ==> l in s || l == x
    ensures SortedByMinScore(r)
  {
    if s == [] || x.minScore <= s[0].minScore then [x] + s
    else
      var t := Insert(x, s[1..]);
      InsertStep(x, s, t);
      [s[0]] + t
  }

  /** The step of `Insert`: `x` goes after the first level. */
  lemma InsertStep(x: Level, s: seq<Level>, t: seq<Level>)
    requires SortedByMinScore(s) && s != [] && s[0].minScore < x.minScore
    requires multiset(t) == multiset(s[1..]) + multiset{x}
    requires forall l :: l in t ==> l in s[1..] || l == x
    requires SortedByMinScore(t)
    ensures multiset([s[0]] + t) == multiset(s) + multiset{x}
    ensures forall l :: l in [s[0]] + t ==> l in s || l == x
    ensures SortedByMinScore([s[0]] + t)
  {
    assert s == [s[0]] + s[1..];
    forall l | l in t ensures s[0].minScore <= l.minScore {
      if l != x {
        var i :| 0 <= i < |s[1..]| && s[1..][i] == l;
        assert s[i + 1] == l;
      }
    }
    ConsSorted(s[0], t);
  }

  /** A level no higher than every level of a sorted list can go first. */
  lemma ConsSorted(h: Level, t: seq<Level>)
    requires SortedByMinScore(t)
    requires forall l :: l in t ==> h.minScore <= l.minScore
    ensures SortedByMinScore([h] + t)
  {
    var r := [h] + t;
    forall i, j | 0 <= i < j < |r| ensures r[i].minScore <= r[j].minScore {
      assert r[j] == t[j - 1];
      if i > 0 {
        assert r[i] == t[i - 1];
      } else {
        assert r[j] in t;
      }
    }
  }

  /** The level list as the query `orderBy: { minScore: "asc" }` returns it. */
  function SortByMinScore(s: seq<Level>): (r: seq<Level>)
    ensures SortedByMinScore(r)
    ensures |r| == |s|
    ensures multiset(r) == multiset(s)
  {
    if s == [] then []
    else
      assert s == [s[0]] + s[1..];
      Insert(s[0], SortByMinScore(s[1..]))
  }

  /** The level found in the sorted list has the smallest minimum score of
      all levels whose range contains the score. */
  lemma FoundLevelIsLowest(levels: seq<Level>, score: int)
    requires SortedByMinScore(levels)
    requires FindLevel(levels, score).Some?
    ensures forall l :: l in levels && Contains(l, score) ==> FindLevel(levels, score).value.minScore <= l.minScore
  {
    var found := FindLevel(levels, score).value;
    var k :| 0 <= k < |levels| && levels[k] == found && Contains(levels[k], score)
             && forall j :: 0 <= j < k ==> !Contains(levels[j], score);
    forall l | l in levels && Contains(l, score)
      ensures found.minScore <= l.minScore
    {
      var i :| 0 <= i < |levels| && levels[i] == l;
      assert i >= k;
      assert levels[k].minScore <= levels[i].minScore;
    }
  }

  /** A level with a null maximum contains only non-positive scores, so of
      the scores `assignLevel` computes it contains only 0. */
  lemma NullMaxContainsOnlyZero(l: Level, score: nat)
    requires l.maxScore.None?
    ensures Contains(l, score) <==> score == 0 && l.minScore <= 0
  {
  }

  // ---------------------------------------------------------------------
  // Level payloads

  /** `createNewLevel`: every absent optional threshold is stored as null. */
  function NewLevel(id: LevelId, d: LevelInput): (l: Level)
    ensures l.id == id && l.name == d.name && l.minScore == d.minScore && l.plan == d.plan
    ensures l.maxScore == d.maxScore && l.dinners == d.dinners && l.hosted == d.hosted
    ensures l.reviews == d.reviews && l.avgRating == d.avgRating && l.minReferals == d.minReferals
    ensures l.minTagCount == d.minTagCount && l.commentFeedLength == d.commentFeedLength
    ensures l.totalBadges == d.totalBadges
  {
    Level(id, d.name, d.minScore, d.maxScore, d.dinners, d.hosted, d.reviews, d.avgRating,
          d.minReferals, d.minTagCount, d.commentFeedLength, d.totalBadges, d.plan)
  }

  /** The keys `updateLevelData` copies from the request. */
  const LevelKeys: seq<string> := [
    "name", "minScore", "maxScore", "dinners", "hosted", "reviews", "avgRating",
    "minReferals", "minTagCount", "commentFeedLength", "totalBadges", "plan"]

  /** `updateLevelData`: both ids are required; then every whitelisted key
      present in the data is copied into the update payload. */
  method UpdateLevelData<V>(userId: UserId, levelId: LevelId, data: map<string, V>)
    returns (r: Result<map<string, V>, GameError>)
    ensures r.Err? <==> userId == "" || levelId == ""
    ensures r.Err? ==> r.error == InvalidFormat
    ensures r.Ok? ==> forall k :: k in r.value <==> k in data && k in LevelKeys
    ensures r.Ok? ==> forall k :: k in r.value ==> r.value[k] == data[k]
  {
    if userId == "" || levelId == "" {
      return Err(InvalidFormat);
    }
    var payload: map<string, V> := map[];
    var i := 0;
    while i < |LevelKeys|
      invariant 0 <= i <= |LevelKeys|
      invariant forall k :: k in payload <==> k in data && k in LevelKeys[..i]
      invariant forall k :: k in payload ==> payload[k] == data[k]
    {
      var key := LevelKeys[i];
      assert LevelKeys[..i + 1] == LevelKeys[..i] + [key];
      if key in data {
        payload := payload[key := data[key]];
      }
      i := i + 1;
    }
    TakeAll(LevelKeys);
    r := Ok(payload);
  }

  // ---------------------------------------------------------------------
  // The store

  /** The user and level tables. */
  class GameStore {
    var players: map<UserId, Player>
    var levels: seq<Level>

    constructor (players: map<UserId, Player>, levels: seq<Level>)
      ensures this.players == players && this.levels == levels
    {
      this.players := players;
      this.levels := levels;
    }

    /** `createNewLevel`; `id` is the key the database generates. */
    method CreateNewLevel(userId: UserId, id: LevelId, d: LevelInput) returns (r: Result<Level, GameError>)
      modifies this
      ensures players == old(players)
      ensures userId == "" ==> r == Err(UserIdNotFound) && levels == old(levels)
      ensures userId != "" ==> r == Ok(NewLevel(id, d)) && levels == old(levels) + [NewLevel(id, d)]
    {
      if userId == "" {
        return Err(UserIdNotFound);
      }
      var level := NewLevel(id, d);
      levels := levels + [level];
      r := Ok(level);
    }

    /** `assignLevel`: the new score is written first; then the first level,
        in ascending minimum-score order, that contains it becomes the
        user's level. With no levels the call fails, and with no containing
        level the user keeps their level; the new score persists in both cases. */
    method AssignLevel(userId: UserId) returns (r: Result<Assignment, GameError>)
      modifies this
      ensures levels == old(levels)
      ensures userId == "" ==> r == Err(InvalidFormat) && players == old(players)
      ensures userId != "" && userId !in old(players) ==> r == Err(UserNotFound) && players == old(players)
      ensures userId != "" && userId in old(players) ==>
                var p := old(players)[userId];
                var score := NewScore(p);
                var found := FindLevel(SortByMinScore(levels), score);
                && (levels == [] ==> r == Err(NoLevelsConfigured) && players == old(players)[userId := p.(score := score)])
                && (levels != [] && found.None? ==> r == Ok(NoLevel(score)) && players == old(players)[userId := p.(score := score)])
                && (found.Some? ==> r == Ok(Assigned(found.value))
                                    && players == old(players)[userId := p.(score := score, levelId := Some(found.value.id))])
    {
      if userId == "" {
        return Err(InvalidFormat);
      }
      if userId !in players {
        return Err(UserNotFound);
      }
      var userStats := players[userId];
      var newScore := NewScore(userStats);
      var scored := userStats.(score := newScore);
      ghost var before := players;
      players := players[userId := scored];
      var allLevels := SortByMinScore(levels);
      if |allLevels| == 0 {
        return Err(NoLevelsConfigured);
      }
      var matchedLevel := FindLevel(allLevels, newScore);
      if matchedLevel.None? {
        return Ok(NoLevel(newScore));
      }
      players := players[userId := scored.(levelId := Some(matchedLevel.value.id))];
      StoreTwice(before, userId, scored, scored.(levelId := Some(matchedLevel.value.id)));
      r := Ok(Assigned(matchedLevel.value));
    }
  }
}
