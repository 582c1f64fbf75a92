/** The request schemas of the event endpoints: the filter query, whose price
    is a digit string and whose keywords are a comma-separated list, and the
    bodies that create or update an event. */
module EventValidators {
  import opened Js
  import opened Schema
  import opened Seqs

  // ---------------------------------------------------------------------
  // Price: `/^[0-9]+$/` followed by `Number(val)`

  predicate IsDigit(c: char) {
    '0' <= c <= '9'
  }

  /** The regular expression `^[0-9]+$`: one or more ASCII digits and nothing else. */
  predicate IsDigits(s: string) {
    |s| > 0 && forall i :: 0 <= i < |s| ==> IsDigit(s[i])
  }

  /** The decimal value of a digit string, most significant digit first. */
  function DigitValue(c: char): nat
    requires IsDigit(c)
  {
    c as int - '0' as int
  }

  function DigitsValue(s: string): nat
    requires forall i :: 0 <= i < |s| ==> IsDigit(s[i])
  {
    if s == [] then 0
    else DigitsValue(s[..|s| - 1]) * 10 + DigitValue(s[|s| - 1])
  }

  function Digit(d: nat): (c: char)
    requires d < 10
    ensures IsDigit(c) && DigitValue(c) == d
  {
    ('0' as int + d) as char
  }

  /** The canonical decimal notation of `n`, without leading zeros. */
  function NatToDigits(n: nat): (s: string)
    ensures IsDigits(s)
    ensures s[0] != '0' || s == "0"
  {
    if n < 10 then [Digit(n)] else NatToDigits(n / 10) + [Digit(n % 10)]
  }

  /** The value of the written-out notation of `n` is `n`. */
  lemma {:induction false} DigitsValueOfNotation(n: nat)
    ensures DigitsValue(NatToDigits(n)) == n
  {
    if n >= 10 {
      var s := NatToDigits(n);
      assert s[..|s| - 1] == NatToDigits(n / 10);
      DigitsValueOfNotation(n / 10);
    }
  }

  /** A digit string with a non-zero leading digit has a positive value. */
  lemma {:induction false} LeadingDigitPositive(s: string)
    requires IsDigits(s) && s[0] != '0'
    ensures DigitsValue(s) >= 1
  {
    if |s| > 1 {
      LeadingDigitPositive(s[..|s| - 1]);
    }
  }

  /** Conversely, a digit string without leading zeros is the notation of its value. */
  lemma {:induction false} NotationOfDigitsValue(s: string)
    requires IsDigits(s) && (s[0] != '0' || |s| == 1)
    ensures NatToDigits(DigitsValue(s)) == s
  {
    if |s| > 1 {
      var p := s[..|s| - 1];
      LeadingDigitPositive(p);
      NotationOfDigitsValue(p);
      var d := DigitValue(s[|s| - 1]);
      var n := DigitsValue(s);
      assert n == DigitsValue(p) * 10 + d;
      assert n / 10 == DigitsValue(p) && n % 10 == d;
      assert s == p + [s[|s| - 1]];
    }
  }

  /** The `price` transform of the filter schema. */
  function ParsePrice(s: string): (r: Option<nat>)
    ensures r.Some? <==> |s| > 0 && forall i :: 0 <= i < |s| ==> '0' <= s[i] <= '9'
  {
    if IsDigits(s) then Some(DigitsValue(s)) else None
  }

  /** Every natural number written in decimal is accepted and read back. */
  lemma ParsePriceRoundTrip(n: nat)
    ensures ParsePrice(NatToDigits(n)) == Some(n)
  {
    DigitsValueOfNotation(n);
  }

  /** Leading zeros are accepted and do not change the value; the empty
      string and a signed or fractional number are rejected. */
  lemma ParsePriceExamples()
    ensures ParsePrice("007") == Some(7)
    ensures ParsePrice("0") == Some(0)
    ensures ParsePrice("") == None
    ensures ParsePrice("-5") == None
    ensures ParsePrice("1.5") == None
  {
    assert "00"[..1] == "0";
    assert "007"[..2] == "00";
    assert DigitsValue("0") == 0;
    assert DigitsValue("00") == 0;
    assert DigitsValue("007") == 7;
    assert !IsDigit('-') && !IsDigit('.');
    assert "-5"[0] == '-';
    assert "1.5"[1] == '.';
  }

  // ---------------------------------------------------------------------
  // Keywords: `val.split(",").map((k) => k.trim())`

  /** `String.prototype.split(",")`: the pieces between the commas, in order;
      the empty string splits into one empty piece. */
  function Split(s: string): (r: seq<string>)
    ensures |r| == multiset(s)[','] + 1
    ensures forall i :: 0 <= i < |r| ==> ',' !in r[i]
  {
    if s == [] then [""]
    else
      var p := Split(s[..|s| - 1]);
      var c := s[|s| - 1];
      assert s == s[..|s| - 1] + [c];
      if c == ',' then p + [""] else Extend(p, [c])
  }

  /** Appends `y` to the last of the pieces. */
  function Extend(pieces: seq<string>, y: string): seq<string>
    requires |pieces| > 0
  {
    pieces[..|pieces| - 1] + [pieces[|pieces| - 1] + y]
  }

  /** `pieces.join(",")` */
  function Join(pieces: seq<string>): string
    requires |pieces| > 0
  {
    if |pieces| == 1 then pieces[0]
    else Join(pieces[..|pieces| - 1]) + [','] + pieces[|pieces| - 1]
  }

  lemma {:induction false} JoinExtendLast(pieces: seq<string>, c: char)
    requires |pieces| > 0
    ensures Join(Extend(pieces, [c])) == Join(pieces) + [c]
  {
    var q := Extend(pieces, [c]);
    if |pieces| > 1 {
      assert q[..|q| - 1] == pieces[..|pieces| - 1];
    }
  }

  /** Joining the pieces with commas gives back the string. */
  lemma {:induction false} JoinSplit(s: string)
    ensures Join(Split(s)) == s
  {
    if s != [] {
      JoinSplit(s[..|s| - 1]);
      JoinSplitStep(s);
    }
  }

  /** The step of `JoinSplit`: the last character after the others. */
  lemma JoinSplitStep(s: string)
    requires s != []
    requires Join(Split(s[..|s| - 1])) == s[..|s| - 1]
    ensures Join(Split(s)) == s
  {
    var init := s[..|s| - 1];
    var c := s[|s| - 1];
    var p := Split(init);
    LastSplit(s);
    if c == ',' {
      SplitStepComma(s);
      JoinAppend(p, "");
      assert init + [','] + "" == s;
    } else {
      SplitStepPlain(s);
      JoinExtendLast(p, c);
    }
  }

  lemma JoinAppend(pieces: seq<string>, x: string)
    requires |pieces| > 0
    ensures Join(pieces + [x]) == Join(pieces) + [','] + x
  {
    assert (pieces + [x])[..|pieces|] == pieces;
  }

  lemma ExtendTwice(pieces: seq<string>, y: string, c: char)
    requires |pieces| > 0
    ensures Extend(Extend(pieces, y), [c]) == Extend(pieces, y + [c])
  {
    var q := Extend(pieces, y);
    var last := pieces[|pieces| - 1];
    assert q[..|q| - 1] == pieces[..|pieces| - 1];
    assert q[|q| - 1] == last + y;
    assert (last + y) + [c] == last + (y + [c]);
  }

  lemma SplitStepPlain(s: string)
    requires s != [] && s[|s| - 1] != ','
    ensures Split(s) == Extend(Split(s[..|s| - 1]), [s[|s| - 1]])
  {
  }

  /** Appending comma-free text extends the last piece. */
  lemma {:induction false} SplitAppendPlain(x: string, y: string)
    requires ',' !in y
    ensures Split(x + y) == Extend(Split(x), y)
  {
    var p := Split(x);
    if y == [] {
      assert x + y == x;
      assert p[|p| - 1] + y == p[|p| - 1];
      assert p[..|p| - 1] + [p[|p| - 1]] == p;
    } else {
      var y' := y[..|y| - 1];
      var c := y[|y| - 1];
      assert y == y' + [c];
      assert ',' !in y' && c != ',' by {
        assert forall d :: d in y' ==> d in y;
        assert c in y;
      }
      SplitAppendPlain(x, y');
      var s := x + y;
      assert s[..|s| - 1] == x + y';
      assert s[|s| - 1] == c;
      SplitStepPlain(s);
      ExtendTwice(p, y', c);
    }
  }

  lemma SplitStepComma(s: string)
    requires s != [] && s[|s| - 1] == ','
    ensures Split(s) == Split(s[..|s| - 1]) + [""]
  {
  }

  /** Splitting comma-free pieces joined with commas gives back the pieces. */
  lemma {:induction false} SplitJoin(pieces: seq<string>)
    requires |pieces| > 0
    requires forall i :: 0 <= i < |pieces| ==> ',' !in pieces[i]
    ensures Split(Join(pieces)) == pieces
  {
    var last := pieces[|pieces| - 1];
    if |pieces| == 1 {
      SplitJoinSingle(last);
      assert pieces == [last];
    } else {
      var init := pieces[..|pieces| - 1];
      assert pieces == init + [last];
      assert forall i :: 0 <= i < |init| ==> ',' !in init[i] by {
        forall i | 0 <= i < |init| ensures ',' !in init[i] {
          assert init[i] == pieces[i];
        }
      }
      SplitJoin(init);
      SplitJoinStep(init, last);
    }
  }

  lemma SplitJoinSingle(last: string)
    requires ',' !in last
    ensures Split(Join([last])) == [last]
  {
    SplitAppendPlain("", last);
    assert "" + last == last;
    assert Extend([""], last) == [last];
  }

  /** The step of `SplitJoin`: one more comma-free piece after the others. */
  lemma SplitJoinStep(init: seq<string>, last: string)
    requires |init| > 0 && ',' !in last
    requires Split(Join(init)) == init
    ensures Split(Join(init + [last])) == init + [last]
  {
    var x := Join(init) + [','];
    assert x[..|x| - 1] == Join(init);
    SplitStepComma(x);
    SplitAppendPlain(x, last);
    JoinAppend(init, last);
    assert (init + [""])[..|init|] == init;
    assert "" + last == last;
  }

  /** The characters `String.prototype.trim` removes: the ECMAScript
      WhiteSpace and LineTerminator code points. */
  predicate IsJsWhitespace(c: char) {
    var n := c as int;
    n == 0x9 || n == 0xA || n == 0xB || n == 0xC || n == 0xD || n == 0x20 || n == 0xA0
    || n == 0x1680 || (0x2000 <= n <= 0x200A) || n == 0x2028 || n == 0x2029
    || n == 0x202F || n == 0x205F || n == 0x3000 || n == 0xFEFF
  }

  /** The first index from `i` on that holds no whitespace, or |s|. */
  function FirstNonSpace(s: string, i: nat): (r: nat)
    requires i <= |s|
    ensures i <= r <= |s|
    ensures forall k :: i <= k < r ==> IsJsWhitespace(s[k])
    ensures r < |s| ==> !IsJsWhitespace(s[r])
    decreases |s| - i
  {
    if i == |s| || !IsJsWhitespace(s[i]) then i else FirstNonSpace(s, i + 1)
  }

  /** The end of the text before `j`: the least index from which only
      whitespace follows up to `j`, but not below `lo`. */
  function EndOfText(s: string, lo: nat, j: nat): (r: nat)
    requires lo <= j <= |s|
    ensures lo <= r <= j
    ensures forall k :: r <= k < j ==> IsJsWhitespace(s[k])
    ensures r > lo ==> !IsJsWhitespace(s[r - 1])
    decreases j - lo
  {
    if j == lo || !IsJsWhitespace(s[j - 1]) then j else EndOfText(s, lo, j - 1)
  }

  /** Where `String.prototype.trim` cuts `s`: before the cut `lo` and from
      the cut `hi` on there is only whitespace, and between them the first
      and the last character are not whitespace. */
  function TrimBounds(s: string): (b: (nat, nat))
    ensures b.0 <= b.1 <= |s|
    ensures forall k :: 0 <= k < b.0 ==> IsJsWhitespace(s[k])
    ensures forall k :: b.1 <= k < |s| ==> IsJsWhitespace(s[k])
    ensures b.0 < b.1 ==> !IsJsWhitespace(s[b.0]) && !IsJsWhitespace(s[b.1 - 1])
  {
    var lo := FirstNonSpace(s, 0);
    (lo, EndOfText(s, lo, |s|))
  }

  /** `String.prototype.trim`: the part of `s` between its leading and its
      trailing whitespace. */
  function Trim(s: string): (r: string)
    ensures |r| <= |s|
    ensures r != [] ==> !IsJsWhitespace(r[0]) && !IsJsWhitespace(r[|r| - 1])
  {
    var b := TrimBounds(s);
    s[b.0..b.1]
  }

  /** Trimming a trimmed string changes nothing. */
  lemma TrimIdempotent(s: string)
    ensures Trim(Trim(s)) == Trim(s)
  {
    var r := Trim(s);
    var b := TrimBounds(r);
    if r != [] {
      assert b.0 == 0 by {
        assert !IsJsWhitespace(r[0]);
      }
      assert b.1 == |r| by {
        assert !IsJsWhitespace(r[|r| - 1]);
      }
      assert r[0..|r|] == r;
    }
  }

  /** A string of whitespace trims to the empty string. */
  lemma TrimAllWhitespace(s: string)
    requires forall i :: 0 <= i < |s| ==> IsJsWhitespace(s[i])
    ensures Trim(s) == ""
  {
    var b := TrimBounds(s);
  }

  /** The `keywords` transform of the filter schema. */
  function ParseKeywords(s: string): (r: seq<string>)
    ensures |r| == multiset(s)[','] + 1
    ensures forall i :: 0 <= i < |r| ==> r[i] == Trim(Split(s)[i])
  {
    var pieces := Split(s);
    seq(|pieces|, i requires 0 <= i < |pieces| => Trim(pieces[i]))
  }

  /** The keyword list is never empty, and a list without commas is the one
      trimmed keyword. */
  lemma KeywordsWithoutComma(s: string)
    requires ',' !in s
    ensures ParseKeywords(s) == [Trim(s)]
  {
    SplitAppendPlain("", s);
    assert "" + s == s;
  }

  // ---------------------------------------------------------------------
  // filterEventSchema

  /** The query string of a filter request. Every value arrives as a string;
      `city` is not a key of the schema. */
  datatype FilterQuery = FilterQuery(
    name: Option<string>,
    venue: Option<string>,
    price: Option<string>,
    keywords: Option<string>,
    city: Option<string>)

  /** The parsed query. Keys the schema does not declare are stripped. */
  datatype FilterData = FilterData(
    name: Option<string>,
    venue: Option<string>,
    price: Option<nat>,
    keywords: Option<seq<string>>)

  datatype FilterIssue = FilterNameEmpty | FilterVenueEmpty | PriceNotNumber

  /** The failed checks, in the order of the schema's keys. */
  function FilterIssues(q: FilterQuery): seq<FilterIssue> {
    (if q.name == Some("") then [FilterNameEmpty] else [])
    + (if q.venue == Some("") then [FilterVenueEmpty] else [])
    + (if q.price.Some? && ParsePrice(q.price.value).None? then [PriceNotNumber] else [])
  }

  /** `filterEventSchema.safeParse(req.query)` */
  function ParseFilter(q: FilterQuery): (r: Result<FilterData, seq<FilterIssue>>)
    ensures r.Ok? <==> (q.name.Some? ==> |q.name.value| >= 1)
                       && (q.venue.Some? ==> |q.venue.value| >= 1)
                       && (q.price.Some? ==> IsDigits(q.price.value))
    ensures r.Err? ==> |r.error| > 0
    ensures r.Ok? ==> r.value.name == q.name && r.value.venue == q.venue
                      && (r.value.price.Some? <==> q.price.Some?)
                      && (q.price.Some? ==> r.value.price.value == DigitsValue(q.price.value))
                      && (r.value.keywords.Some? <==> q.keywords.Some?)
                      && (q.keywords.Some? ==> r.value.keywords.value == ParseKeywords(q.keywords.value))
  {
    var issues := FilterIssues(q);
    if issues != [] then Err(issues)
    else
      Ok(FilterData(
        q.name, q.venue,
        if q.price.Some? then ParsePrice(q.price.value) else None,
        if q.keywords.Some? then Some(ParseKeywords(q.keywords.value)) else None))
  }

  // ---------------------------------------------------------------------
  // createEventSchema and updateEventSchema

  /** A key of a JSON body: absent, present with the wrong type, or present
      with a value of the expected type. */
  datatype Field<+T> = Missing | WrongType | Given(value: T)

  /** The keys both event schemas share; `scheduled` is not modelled. */
  datatype EventBody = EventBody(
    name: Field<string>,
    maxSeats: Field<real>,
    price: Field<real>,
    venue: Field<string>,
    plan: Field<string>)

  /** One failed check; the custom messages of the schema name these. */
  datatype EventIssue =
    | NameNotString | NameEmpty
    | SeatsNotNumber | SeatsNotInteger | SeatsNotSafeInteger | SeatsNotPositive
    | PriceNotNumeric | PriceNotPositive
    | VenueNotString | VenueEmpty
    | PlanInvalid
    | KeywordsInvalid

  /** The parsed body. */
  datatype EventData = EventData(name: string, maxSeats: int, price: real, venue: string, plan: Plan)

  function NameIssues(f: Field<string>): seq<EventIssue> {
    match f
    case Given(s) => if s == "" then [NameEmpty] else []
    case _ => [NameNotString]
  }

  /** `Number.MAX_SAFE_INTEGER`, 2^53 - 1. */
  const MaxSafeInteger: real := 9007199254740991.0

  /** `z.number().int().positive()`. A fraction fails `.int()` with an issue
      that stops every later check, so `.positive()` does not run. An
      integer outside the safe range fails `.int()` too, but that issue lets
      `.positive()` run. */
  function SeatsIssues(f: Field<real>): (r: seq<EventIssue>)
    ensures r == [] <==> f.Given? && f.value.Floor as real == f.value && 0.0 < f.value <= MaxSafeInteger
    ensures SeatsNotInteger in r <==> f.Given? && f.value.Floor as real != f.value
    ensures SeatsNotInteger in r ==> r == [SeatsNotInteger]
    ensures SeatsNotPositive in r <==> f.Given? && f.value.Floor as real == f.value && f.value <= 0.0
  {
    match f
    case Given(v) =>
      if v.Floor as real != v then [SeatsNotInteger]
      else
        (if v < -MaxSafeInteger || MaxSafeInteger < v then [SeatsNotSafeInteger] else [])
        + (if v <= 0.0 then [SeatsNotPositive] else [])
    case _ => [SeatsNotNumber]
  }

  function PriceIssues(f: Field<real>): seq<EventIssue> {
    match f
    case Given(v) => if v <= 0.0 then [PriceNotPositive] else []
    case _ => [PriceNotNumeric]
  }

  function VenueIssues(f: Field<string>): seq<EventIssue> {
    match f
    case Given(s) => if s == "" then [VenueEmpty] else []
    case _ => [VenueNotString]
  }

  /** `z.enum(["BASIC", "GOLD", "PLATINUM"]).default("BASIC")` */
  function PlanOf(f: Field<string>): (r: Option<Plan>)
    ensures f.Missing? ==> r == Some(Basic)
    ensures f.WrongType? ==> r.None?
    ensures f.Given? ==> (r.Some? <==> f.value in {"BASIC", "GOLD", "PLATINUM"})
  {
    match f
    case Missing => Some(Basic)
    case WrongType => None
    case Given(s) =>
      if s == "BASIC" then Some(Basic)
      else if s == "GOLD" then Some(Gold)
      else if s == "PLATINUM" then Some(Platinum)
      else None
  }

  function BodyIssues(b: EventBody): seq<EventIssue> {
    NameIssues(b.name) + SeatsIssues(b.maxSeats) + PriceIssues(b.price) + VenueIssues(b.venue)
    + (if PlanOf(b.plan).None? then [PlanInvalid] else [])
  }

  /** The constraints of the event schemas on the shared keys. */
  predicate AcceptableBody(b: EventBody) {
    && b.name.Given? && b.name.value != ""
    && b.maxSeats.Given? && b.maxSeats.value.Floor as real == b.maxSeats.value
    && 0.0 < b.maxSeats.value <= MaxSafeInteger
    && b.price.Given? && b.price.value > 0.0
    && b.venue.Given? && b.venue.value != ""
    && PlanOf(b.plan).Some?
  }

  function DataOf(b: EventBody): EventData
    requires AcceptableBody(b)
  {
    EventData(b.name.value, b.maxSeats.value.Floor, b.price.value, b.venue.value, PlanOf(b.plan).value)
  }

  /** `createEventSchema.safeParse(req.body)` */
  function ParseCreate(b: EventBody): (r: Result<EventData, seq<EventIssue>>)
    ensures r.Ok? <==> AcceptableBody(b)
    ensures r.Ok? ==> r.value.name == b.name.value && r.value.venue == b.venue.value
                      && 1 <= r.value.maxSeats <= 9007199254740991 && r.value.maxSeats as real == b.maxSeats.value
                      && r.value.price > 0.0 && r.value.price == b.price.value
                      && Some(r.value.plan) == PlanOf(b.plan)
    ensures r.Err? ==> |r.error| > 0
  {
    var issues := BodyIssues(b);
    if issues == [] then Ok(DataOf(b)) else Err(issues)
  }

  /** `z.array(z.string()).optional().or(z.literal(undefined))` */
  function KeywordsOf(f: Field<seq<string>>): (r: Result<Option<seq<string>>, EventIssue>)
    ensures r.Err? <==> f.WrongType?
    ensures f.Given? ==> r == Ok(Some(f.value))
  {
    match f
    case Missing => Ok(None)
    case WrongType => Err(KeywordsInvalid)
    case Given(ks) => Ok(Some(ks))
  }

  /** `updateEventSchema.safeParse(req.body)`: the shared keys and an
      optional keyword list. */
  function ParseUpdate(b: EventBody, keywords: Field<seq<string>>): (r: Result<(EventData, Option<seq<string>>), seq<EventIssue>>)
    ensures r.Ok? <==> AcceptableBody(b) && !keywords.WrongType?
    ensures r.Err? ==> |r.error| > 0
  {
    var k := KeywordsOf(keywords);
    var issues := BodyIssues(b) + (if k.Err? then [k.error] else []);
    if issues == [] then Ok((DataOf(b), k.value)) else Err(issues)
  }

  /** An update body is accepted exactly when the same keys would create an
      event and the keyword list is well-typed, and both parse them alike. */
  lemma UpdateAgreesWithCreate(b: EventBody, keywords: Field<seq<string>>)
    ensures ParseUpdate(b, keywords).Ok? <==> ParseCreate(b).Ok? && !keywords.WrongType?
    ensures ParseUpdate(b, keywords).Ok? ==> ParseUpdate(b, keywords).value.0 == ParseCreate(b).value
  {
  }

  /** A fractional seat count reports only the integer check, because that
      failure stops the positive check. An integer beyond 2^53 - 1 fails the
      integer check, and the positive check still runs after it. A zero
      price is rejected, and a valid body without a plan gets BASIC. */
  lemma FractionalSeatsStopSeatChecks(name: string, venue: string)
    requires name != "" && venue != ""
    ensures ParseCreate(EventBody(Given(name), Given(-1.5), Given(10.0), Given(venue), Missing))
            == Err([SeatsNotInteger])
    ensures ParseCreate(EventBody(Given(name), Given(9007199254740992.0), Given(10.0), Given(venue), Missing))
            == Err([SeatsNotSafeInteger])
    ensures ParseCreate(EventBody(Given(name), Given(-9007199254740992.0), Given(10.0), Given(venue), Missing))
            == Err([SeatsNotSafeInteger, SeatsNotPositive])
    ensures ParseCreate(EventBody(Given(name), Given(4.0), Given(0.0), Given(venue), Missing))
            == Err([PriceNotPositive])
    ensures ParseCreate(EventBody(Given(name), Given(4.0), Given(10.0), Given(venue), Missing))
            == Ok(EventData(name, 4, 10.0, venue, Basic))
  {
    SeatExamples();
    assert NameIssues(Given(name)) == [] && VenueIssues(Given(venue)) == [];
    assert PriceIssues(Given(10.0)) == [] && PriceIssues(Given(0.0)) == [PriceNotPositive];
    assert BodyIssues(EventBody(Given(name), Given(-1.5), Given(10.0), Given(venue), Missing))
           == [SeatsNotInteger];
    assert BodyIssues(EventBody(Given(name), Given(9007199254740992.0), Given(10.0), Given(venue), Missing))
           == [SeatsNotSafeInteger];
    assert BodyIssues(EventBody(Given(name), Given(-9007199254740992.0), Given(10.0), Given(venue), Missing))
           == [SeatsNotSafeInteger, SeatsNotPositive];
    assert BodyIssues(EventBody(Given(name), Given(4.0), Given(0.0), Given(venue), Missing))
           == [PriceNotPositive];
  }

  /** The seat issues of the example counts. */
  lemma SeatExamples()
    ensures SeatsIssues(Given(-1.5)) == [SeatsNotInteger]
    ensures SeatsIssues(Given(9007199254740992.0)) == [SeatsNotSafeInteger]
    ensures SeatsIssues(Given(-9007199254740992.0)) == [SeatsNotSafeInteger, SeatsNotPositive]
    ensures SeatsIssues(Given(4.0)) == [] && (4.0).Floor == 4
  {
    assert (-1.5).Floor == -2;
    assert (9007199254740992.0).Floor == 9007199254740992;
    assert (-9007199254740992.0).Floor == -9007199254740992;
  }
}
