/** Badge assignment: statistics of a user's registrations, hosted events and
    reviews are tested against each configured badge rule, and the badges of
    the rules that pass are added to the user's badges, without duplicates. */
module Badges {
  import opened Js
  import opened Schema
  import opened Seqs

  /** A review the user wrote: its rating and its nullable comment. */
  datatype Review = Review(rating: int, comment: Option<string>)

  /** What `assignBadges` reads of a user: the status of each registration,
      how many events the user hosts, the user's reviews and current badges. */
  datatype UserProfile = UserProfile(
    registrations: seq<RegistrationStatus>,
    hostedEvents: nat,
    reviews: seq<Review>,
    badges: seq<Badge>)

  /** A row of the badge-rule table; every threshold is nullable. */
  datatype BadgeRule = BadgeRule(
    badge: Badge,
    dinners: Option<int>,
    hosted: Option<int>,
    reviews: Option<int>,
    avgRating: Option<real>,
    commentFeedLength: Option<int>,
    minReferrals: Option<int>)

  datatype UserStats = UserStats(
    dinnersAttended: nat,
    dinnersHosted: nat,
    fiveStarReviews: nat,
    avgRating: Number,
    maxCommentLength: Number)

  datatype BadgeError = UserIdNotFound | UserNotFound

  // ---------------------------------------------------------------------
  // Statistics

  /** `s.filter(y => y === x).length`. */
  function Count<T(==)>(s: seq<T>, x: T): (n: nat)
    ensures n == multiset(s)[x]
  {
    if s == [] then 0
    else
      assert s == s[..|s| - 1] + [s[|s| - 1]];
      Count(s[..|s| - 1], x) + (if s[|s| - 1] == x then 1 else 0)
  }

  function Ratings(rs: seq<Review>): (r: seq<int>)
    ensures |r| == |rs| && forall i :: 0 <= i < |rs| ==> r[i] == rs[i].rating
  {
    seq(|rs|, i requires 0 <= i < |rs| => rs[i].rating)
  }

  /** `reviews.reduce((a, b) => a + b.rating, 0)`. */
  function RatingSum(rs: seq<Review>): int {
    if rs == [] then 0 else RatingSum(rs[..|rs| - 1]) + rs[|rs| - 1].rating
  }

  /** The sum over reviews divided by their number: 0 / 0 is NaN. */
  function AvgRating(rs: seq<Review>): (r: Number)
    ensures r.NaN? <==> rs == []
  {
    if |rs| == 0 then NaN else Num(RatingSum(rs) as real / |rs| as real)
  }

  /** `comment?.length`: a null comment gives `undefined`, which `Math.max`
      turns into NaN. */
  function CommentLength(r: Review): Number {
    if r.comment.Some? then Num(|r.comment.value| as real) else NaN
  }

  /** `reviews.reduce((a, b) => Math.max(a, b.comment?.length), 0)`. */
  function MaxCommentLength(rs: seq<Review>): (r: Number)
    ensures r.NaN? <==> exists i :: 0 <= i < |rs| && rs[i].comment.None?
    ensures r.Num? ==> forall i :: 0 <= i < |rs| ==> |rs[i].comment.value| as real <= r.v
    ensures r.Num? ==> r.v == 0.0 || exists i :: 0 <= i < |rs| && |rs[i].comment.value| as real == r.v
  {
    if rs == [] then Num(0.0)
    else
      var prev := MaxCommentLength(rs[..|rs| - 1]);
      assert forall i :: 0 <= i < |rs| - 1 ==> rs[..|rs| - 1][i] == rs[i];
      Max(prev, CommentLength(rs[|rs| - 1]))
  }

  /** The statistics the rules are tested against: only APPROVED
      registrations count as dinners attended, and only ratings of exactly 5
      as five-star reviews. */
  function Stats(p: UserProfile): (s: UserStats)
    ensures s.dinnersAttended == multiset(p.registrations)[Approved]
    ensures s.dinnersHosted == p.hostedEvents
    ensures s.fiveStarReviews == multiset(Ratings(p.reviews))[5]
    ensures s.avgRating == AvgRating(p.reviews) && s.maxCommentLength == MaxCommentLength(p.reviews)
  {
    UserStats(
      Count(p.registrations, Approved),
      p.hostedEvents,
      Count(Ratings(p.reviews), 5),
      AvgRating(p.reviews),
      MaxCommentLength(p.reviews))
  }

  // ---------------------------------------------------------------------
  // Rules

  /** `stat >= threshold` guarded by the threshold's truthiness. */
  predicate Reaches(stat: nat, threshold: Option<int>) {
    TruthyInt(threshold) && stat >= threshold.value
  }

  /** The `switch` over a rule's badge. A badge without a case awards nothing. */
  predicate Awards(rule: BadgeRule, s: UserStats) {
    match rule.badge
    case SparkMember => Reaches(s.dinnersAttended, rule.dinners)
    case After8Insider => Reaches(s.dinnersAttended, rule.dinners)
    case LegacyMember => Reaches(s.dinnersAttended, rule.dinners)
    case TableFavourite => Reaches(s.fiveStarReviews, rule.reviews)
    case LegendaryPresence => Reaches(s.fiveStarReviews, rule.reviews)
    case GoldenSpoon => TruthyReal(rule.avgRating) && AtLeast(s.avgRating, rule.avgRating.value)
    case TheFoodOracle =>
      TruthyInt(rule.commentFeedLength) && AtLeast(s.maxCommentLength, rule.commentFeedLength.value as real)
    case HostTitle => Reaches(s.dinnersHosted, rule.hosted) && Reaches(s.fiveStarReviews, rule.reviews)
    case ThePlusOneMagnet => false
  }

  /** A zero threshold (dinners, reviews, average rating or comment
      length) never awards; a user without reviews never earns
      GOLDEN_SPOON; a null comment rules out THE_FOOD_ORACLE; HOST_TITLE
      needs both thresholds non-zero and met. */
  lemma AwardsEdgeCases(rule: BadgeRule, p: UserProfile)
    ensures rule.badge in {SparkMember, After8Insider, LegacyMember} && rule.dinners == Some(0) ==> !Awards(rule, Stats(p))
    ensures rule.badge in {TableFavourite, LegendaryPresence} && rule.reviews == Some(0) ==> !Awards(rule, Stats(p))
    ensures rule.badge == GoldenSpoon && rule.avgRating == Some(0.0) ==> !Awards(rule, Stats(p))
    ensures rule.badge == TheFoodOracle && rule.commentFeedLength == Some(0) ==> !Awards(rule, Stats(p))
    ensures rule.badge == GoldenSpoon && p.reviews == [] ==> !Awards(rule, Stats(p))
    ensures (rule.badge == TheFoodOracle && exists i :: 0 <= i < |p.reviews| && p.reviews[i].comment.None?)
            ==> !Awards(rule, Stats(p))
    ensures rule.badge == HostTitle ==>
              (Awards(rule, Stats(p)) <==>
                 TruthyInt(rule.hosted) && TruthyInt(rule.reviews)
                 && p.hostedEvents >= rule.hosted.value && multiset(Ratings(p.reviews))[5] >= rule.reviews.value)
    ensures rule.badge == ThePlusOneMagnet ==> !Awards(rule, Stats(p))
  {
  }

  /** The badges pushed by the loop over `rules`, in rule order. */
  function NewBadges(rules: seq<BadgeRule>, s: UserStats): (r: seq<Badge>)
    ensures forall b :: b in r <==> exists i :: 0 <= i < |rules| && rules[i].badge == b && Awards(rules[i], s)
  {
    if rules == [] then []
    else
      var n := |rules|;
      var prev := NewBadges(rules[..n - 1], s);
      assert forall i :: 0 <= i < n - 1 ==> rules[..n - 1][i] == rules[i];
      prev + (if Awards(rules[n - 1], s) then [rules[n - 1].badge] else [])
  }

  // ---------------------------------------------------------------------
  // The union with the existing badges

  predicate NoDuplicates(s: seq<Badge>) {
    forall i, j :: 0 <= i < j < |s| ==> s[i] != s[j]
  }

  /** `Array.from(new Set(s))`: the first occurrence of each badge, in order. */
  function Dedup(s: seq<Badge>): (r: seq<Badge>)
    ensures NoDuplicates(r)
    ensures forall x :: x in r <==> x in s
  {
    if s == [] then []
    else
      var p := Dedup(s[..|s| - 1]);
      var last := s[|s| - 1];
      assert forall x :: x in s <==> x in s[..|s| - 1] || x == last by {
        assert s == s[..|s| - 1] + [last];
      }
      if last in p then p else p + [last]
  }

  /** Deduplicating a longer list keeps the deduplicated prefix in front. */
  lemma {:induction false} DedupPrefix(s: seq<Badge>, t: seq<Badge>)
    ensures |Dedup(s)| <= |Dedup(s + t)| && Dedup(s + t)[..|Dedup(s)|] == Dedup(s)
  {
    if t != [] {
      var n := |t|;
      assert (s + t)[..|s + t| - 1] == s + t[..n - 1];
      DedupPrefix(s, t[..n - 1]);
    } else {
      assert s + t == s;
    }
  }

  /** Appending elements already present changes nothing. */
  lemma {:induction false} DedupAbsorbs(s: seq<Badge>, t: seq<Badge>)
    requires forall x :: x in t ==> x in s
    ensures Dedup(s + t) == Dedup(s)
  {
    if t != [] {
      var n := |t|;
      assert (s + t)[..|s + t| - 1] == s + t[..n - 1];
      DedupAbsorbs(s, t[..n - 1]);
      assert (s + t)[|s + t| - 1] == t[n - 1];
    } else {
      assert s + t == s;
    }
  }

  /** A list without duplicates is its own deduplication. */
  lemma {:induction false} DedupKeepsDistinct(s: seq<Badge>)
    requires NoDuplicates(s)
    ensures Dedup(s) == s
  {
    if s != [] {
      var n := |s|;
      DedupKeepsDistinct(s[..n - 1]);
      assert s[n - 1] !in s[..n - 1];
      assert s[..n - 1] + [s[n - 1]] == s;
    }
  }

  /** The stored list after `assignBadges`. */
  function BadgeList(p: UserProfile, rules: seq<BadgeRule>): (r: seq<Badge>)
    ensures NoDuplicates(r)
    ensures forall b :: b in r <==> b in p.badges || b in NewBadges(rules, Stats(p))
  {
    Dedup(p.badges + NewBadges(rules, Stats(p)))
  }

  /** The result holds exactly the existing and the new badges, once each;
      no existing badge is lost, and existing badges without duplicates stay
      in front in their order. */
  lemma BadgeListUnion(p: UserProfile, rules: seq<BadgeRule>)
    ensures NoDuplicates(BadgeList(p, rules))
    ensures forall b :: b in BadgeList(p, rules) <==> b in p.badges || b in NewBadges(rules, Stats(p))
    ensures NoDuplicates(p.badges) ==>
              |p.badges| <= |BadgeList(p, rules)| && BadgeList(p, rules)[..|p.badges|] == p.badges
  {
    if NoDuplicates(p.badges) {
      DedupPrefix(p.badges, NewBadges(rules, Stats(p)));
      DedupKeepsDistinct(p.badges);
    }
  }

  /** Running `assignBadges` again on unchanged data gives the same list. */
  lemma AssignBadgesIdempotent(p: UserProfile, rules: seq<BadgeRule>)
    ensures BadgeList(p.(badges := BadgeList(p, rules)), rules) == BadgeList(p, rules)
  {
    var once := BadgeList(p, rules);
    var p2 := p.(badges := once);
    assert Stats(p2) == Stats(p);
    DedupAbsorbs(once, NewBadges(rules, Stats(p)));
    DedupKeepsDistinct(once);
  }

  // ---------------------------------------------------------------------
  // The store

  /** The user table (the parts `assignBadges` reads) and the rule table. */
  class UserStore {
    var users: map<UserId, UserProfile>
    var rules: seq<BadgeRule>

    constructor (users: map<UserId, UserProfile>, rules: seq<BadgeRule>)
      ensures this.users == users && this.rules == rules
    {
      this.users := users;
      this.rules := rules;
    }

    /** `assignBadges`: collect the badges of the rules the user passes, in
        rule order, and store the union with the user's badges. */
    method AssignBadges(userId: UserId) returns (r: Result<seq<Badge>, BadgeError>)
      modifies this
      ensures rules == old(rules)
      ensures userId == "" ==> r == Err(UserIdNotFound) && users == old(users)
      ensures userId != "" && userId !in old(users) ==> r == Err(UserNotFound) && users == old(users)
      ensures userId != "" && userId in old(users) ==>
                var p := old(users)[userId];
                r == Ok(BadgeList(p, rules)) && users == old(users)[userId := p.(badges := BadgeList(p, rules))]
    {
      if userId == "" {
        return Err(UserIdNotFound);
      }
      if userId !in users {
        return Err(UserNotFound);
      }
      var user := users[userId];
      var userStats := Stats(user);
      var newBadges: seq<Badge> := [];
      var i := 0;
      while i < |rules|
        invariant 0 <= i <= |rules|
        invariant newBadges == NewBadges(rules[..i], userStats)
      {
        var rule := rules[i];
        assert rules[..i + 1][..i] == rules[..i];
        if Awards(rule, userStats) {
          newBadges := newBadges + [rule.badge];
        }
        i := i + 1;
      }
      TakeAll(rules);
      var badges := Dedup(user.badges + newBadges);
      users := users[userId := user.(badges := badges)];
      r := Ok(badges);
    }
  }
}
